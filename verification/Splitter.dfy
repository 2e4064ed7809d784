/** `SplitReplicas`: the loops of the operator, proved to compute `SignedAllocation.SplitSigned`. */
module Splitter {
  import opened Lex
  import opened Integers
  import opened Allocation
  import opened AllocationLaws
  import opened SignedAllocation

  /** Enough to keep products and what is left within 64 bits. */
  const MAX_POLICIES: int := 0x8000_0000

  ghost predicate Int32Limits(ps: seq<ScalePolicy>) {
    forall p :: p in ps ==> IsInt32(Limit(p))
  }

  /** The operator's `split`: an equal share of `total` for one of `n` groups, rounded up. */
  function ShareOf(total: int, n: int): int
    requires total >= 0 && n > 0
  {
    if total % n == 0 then total / n else total / n + 1
  }

  // ---- Sorting, as a specified sort ----

  function InsertByLimit(p: ScalePolicy, s: seq<ScalePolicy>): (r: seq<ScalePolicy>)
    ensures multiset(r) == multiset(s) + multiset{p}
  {
    if s == [] || Before(p, s[0]) then [p] + s
    else
      assert s == [s[0]] + s[1..];
      [s[0]] + InsertByLimit(p, s[1..])
  }

  function SortByLimit(s: seq<ScalePolicy>): (r: seq<ScalePolicy>)
    ensures multiset(r) == multiset(s)
  {
    if s == [] then []
    else
      assert s == [s[0]] + s[1..];
      InsertByLimit(s[0], SortByLimit(s[1..]))
  }

  ghost predicate Sorted(s: seq<ScalePolicy>) {
    forall i, j :: 0 <= i < j < |s| ==> Before(s[i], s[j])
  }

  lemma BeforeIsTransitive(p: ScalePolicy, q: ScalePolicy, r: ScalePolicy)
    requires Before(p, q) && Before(q, r)
    ensures Before(p, r)
  {
    if Less(p.group, q.group) && Less(q.group, r.group) { LessTransitive(p.group, q.group, r.group); }
  }

  lemma {:induction false} InsertKeepsSorted(p: ScalePolicy, s: seq<ScalePolicy>)
    requires Sorted(s) && forall q :: q in s ==> q.group != p.group
    ensures Sorted(InsertByLimit(p, s))
  {
    if s != [] {
      if Before(p, s[0]) {
        forall j | 0 <= j < |s| ensures Before(p, s[j]) {
          if j > 0 { BeforeIsTransitive(p, s[0], s[j]); }
        }
      } else {
        InsertKeepsSorted(p, s[1..]);
        var r := InsertByLimit(p, s[1..]);
        LessTotal(p.group, s[0].group);
        forall j | 0 <= j < |r| ensures Before(s[0], r[j]) {
          assert r[j] in multiset(r);
          assert r[j] == p || r[j] in s[1..];
        }
      }
    }
  }

  lemma {:induction false} SortIsSorted(s: seq<ScalePolicy>)
    requires DistinctGroups(s)
    ensures Sorted(SortByLimit(s)) && |SortByLimit(s)| == |s|
    ensures forall i, j :: 0 <= i < j < |s| ==>
              var p, q := SortByLimit(s)[i], SortByLimit(s)[j];
              Limit(p) < Limit(q) || (Limit(p) == Limit(q) && Less(p.group, q.group))
  {
    assert |multiset(SortByLimit(s))| == |multiset(s)|;
    if s != [] {
      SortIsSorted(s[1..]);
      SameMembers(SortByLimit(s[1..]), s[1..]);
      InsertKeepsSorted(s[0], SortByLimit(s[1..]));
    }
  }

  function InsertDescending(k: int, s: seq<int>): (r: seq<int>)
    requires k !in s && forall i, j :: 0 <= i < j < |s| ==> s[i] > s[j]
    ensures forall x :: x in r <==> x == k || x in s
    ensures forall i, j :: 0 <= i < j < |r| ==> r[i] > r[j]
  {
    if s == [] || k > s[0] then [k] + s
    else
      var rest := InsertDescending(k, s[1..]);
      assert forall j :: 0 <= j < |rest| ==> rest[j] in rest;
      [s[0]] + rest
  }

  // ---- One class ----

  /** Multiplication as repeated addition: one step of the loop is one unfolding. */
  ghost function Times(n: nat, x: int): int {
    if n == 0 then 0 else x + Times(n - 1, x)
  }

  lemma {:induction false} TimesIsProduct(n: nat, x: int)
    ensures Times(n, x) == x * n
  {
    if n > 0 { TimesIsProduct(n - 1, x); }
  }

  lemma {:induction false} TimesGrows(n: nat, x: int, y: int)
    ensures x <= y ==> Times(n, x) <= Times(n, y)
    ensures x < y ==> Times(n, x) + n <= Times(n, y)
    ensures x >= 0 ==> Times(n, x) >= 0
  {
    if n > 0 { TimesGrows(n - 1, x, y); }
  }

  lemma ProductFits(limit: int, n: nat)
    requires IsInt32(limit) && n <= MAX_POLICIES
    ensures Wrap64(limit * n) == Times(n, limit)
  {
    TimesIsProduct(n, -0x8000_0000);
    TimesIsProduct(n, limit);
    TimesIsProduct(n, MAX_INT32);
    TimesGrows(n, -0x8000_0000, limit);
    TimesGrows(n, limit, MAX_INT32);
    Wrap64Fits(limit * n);
  }

  lemma SameLevel(n: nat, level: int, extra: int, q: int, m: int)
    requires Times(n, level) + extra == Times(n, q) + m && 0 <= extra < n && 0 <= m < n
    ensures level == q && extra == m
  {
    TimesGrows(n, level, q);
    TimesGrows(n, q, level);
  }

  lemma ShareIs(left: int, n: nat, level: int, extra: int)
    requires n > 0 && left >= 0 && left == Times(n, level) + extra && 0 <= extra < n
    ensures ShareOf(left, n) == if extra == 0 then level else level + 1
  {
    TimesIsProduct(n, left / n);
    SameLevel(n, level, extra, left / n, left % n);
  }

  lemma LevelOf(left: int, n: nat) returns (level: nat, extra: nat)
    requires n > 0 && left >= 0
    ensures left == Times(n, level) + extra && extra < n
  {
    level, extra := left / n, left % n;
    TimesIsProduct(n, level);
  }

  /** How far a class is filled. The first `full` groups are full. Once the division branch is
      taken, the others get `level` or `level + 1`, the larger shares first, and `extra` counts the
      larger shares still to come. */
  datatype Progress = Taking | Sharing(full: nat, level: nat, extra: nat)

  ghost predicate Filling(groups: seq<ScalePolicy>, shares: seq<int>, totalLeft: int, at: Progress) {
    var i, n := |shares|, |groups|;
    && i <= n && totalLeft >= 0
    && (at.Taking? ==>
          && (forall k :: 0 <= k < i ==> shares[k] == Limit(groups[k]))
          && (i > 0 ==> Times(n - i, Limit(groups[i - 1])) <= totalLeft))
    && (at.Sharing? ==>
          && at.full < i
          && totalLeft == Times(n - i, at.level) + at.extra && (at.extra < n - i || (at.extra == 0 && i == n))
          && (forall k :: 0 <= k < at.full ==> shares[k] == Limit(groups[k]) <= at.level)
          && (forall k :: at.full <= k < n ==> Limit(groups[k]) >= at.level + 1)
          && (forall k :: at.full <= k < i ==> at.level <= shares[k] <= at.level + 1)
          && (at.extra > 0 ==> forall k :: at.full <= k < i ==> shares[k] == at.level + 1)
          && (forall k, l :: at.full <= k < l < i ==> shares[k] >= shares[l]))
  }

  /** Once a class is being shared the limits are above the level, so no limit fits any more. */
  lemma SharingStays(groups: seq<ScalePolicy>, shares: seq<int>, totalLeft: int, at: Progress)
    requires Filling(groups, shares, totalLeft, at) && |shares| < |groups|
    requires Times(|groups| - |shares|, Limit(groups[|shares|])) <= totalLeft
    ensures at.Taking?
  {
    if at.Sharing? {
      TimesGrows(|groups| - |shares|, at.level, Limit(groups[|shares|]));
      assert false;
    }
  }

  lemma TakeLimit(groups: seq<ScalePolicy>, shares: seq<int>, totalLeft: int, at: Progress)
    requires Filling(groups, shares, totalLeft, at) && |shares| < |groups|
    requires Times(|groups| - |shares|, Limit(groups[|shares|])) <= totalLeft
    ensures Filling(groups, shares + [Limit(groups[|shares|])], totalLeft - Limit(groups[|shares|]), Taking)
  {
    SharingStays(groups, shares, totalLeft, at);
    var limit := Limit(groups[|shares|]);
    TimesGrows(|groups| - |shares| - 1, limit, limit);
  }

  lemma StartSharing(groups: seq<ScalePolicy>, shares: seq<int>, totalLeft: int, level: nat, extra: nat)
    requires Sorted(groups) && Filling(groups, shares, totalLeft, Taking) && |shares| < |groups|
    requires Times(|groups| - |shares|, Limit(groups[|shares|])) > totalLeft
    requires totalLeft == Times(|groups| - |shares|, level) + extra && extra < |groups| - |shares|
    ensures forall k :: 0 <= k < |shares| ==> shares[k] == Limit(groups[k]) <= level
    ensures forall k :: |shares| <= k < |groups| ==> Limit(groups[k]) >= level + 1
  {
    var i, n := |shares|, |groups| - |shares|;
    TimesGrows(n, Limit(groups[i]), level);
    assert forall k :: i < k < |groups| ==> Before(groups[i], groups[k]);
    if i > 0 {
      TimesGrows(n, level, Limit(groups[i - 1]));
      assert forall k :: 0 <= k < i - 1 ==> Before(groups[k], groups[i - 1]);
    }
  }

  lemma TakeShare(groups: seq<ScalePolicy>, shares: seq<int>, totalLeft: int, at: Progress) returns (next: Progress)
    requires Sorted(groups) && Filling(groups, shares, totalLeft, at) && |shares| < |groups|
    requires Times(|groups| - |shares|, Limit(groups[|shares|])) > totalLeft
    ensures var taken := ShareOf(totalLeft, |groups| - |shares|);
            && Filling(groups, shares + [taken], totalLeft - taken, next)
            && 0 <= taken <= Limit(groups[|shares|])
  {
    var i, n := |shares|, |groups| - |shares|;
    var full, level, extra := i, 0, 0;
    if at.Taking? {
      level, extra := LevelOf(totalLeft, n);
      StartSharing(groups, shares, totalLeft, level, extra);
    } else {
      full, level, extra := at.full, at.level, at.extra;
    }
    ShareIs(totalLeft, n, level, extra);
    TimesGrows(n - 1, level, level);
    next := Sharing(full, level, if extra == 0 then 0 else extra - 1);
  }

  /** A filled class: within limits, even, and nothing left unless everybody is full. */
  ghost predicate Filled(groups: seq<ScalePolicy>, shares: seq<int>, totalLeft: int) {
    && |shares| == |groups| && totalLeft >= 0
    && (forall k, l :: 0 <= k < l < |groups| && shares[k] < shares[l] ==> shares[k] == Limit(groups[k]))
    && (forall k, l :: 0 <= k < l < |groups| ==> shares[k] <= shares[l] + 1)
    && (totalLeft > 0 ==> forall k :: 0 <= k < |groups| ==> shares[k] == Limit(groups[k]))
  }

  lemma FillingEnds(groups: seq<ScalePolicy>, shares: seq<int>, totalLeft: int, at: Progress)
    requires Sorted(groups) && Filling(groups, shares, totalLeft, at) && |shares| == |groups|
    ensures Filled(groups, shares, totalLeft)
  {
    assert forall k, l :: 0 <= k < l < |groups| ==> Before(groups[k], groups[l]);
  }

  /** A negative limit is handed out as it is, and nobody else has less than nothing or more than its limit. */
  ghost predicate Bounded(groups: seq<ScalePolicy>, shares: seq<int>) {
    && |shares| <= |groups|
    && forall k :: 0 <= k < |shares| ==>
         if Limit(groups[k]) < 0 then shares[k] == Limit(groups[k]) else 0 <= shares[k] <= Limit(groups[k])
  }

  /** What the next group takes: its limit if everybody left could have as much, else a share. */
  method FillNext(groups: seq<ScalePolicy>, shares: seq<int>, totalLeft: int, ghost at: Progress)
    returns (taken: int, ghost next: Progress)
    requires Sorted(groups) && Int32Limits(groups) && |groups| <= MAX_POLICIES
    requires Filling(groups, shares, totalLeft, at) && Bounded(groups, shares) && |shares| < |groups|
    ensures IsInt32(taken) && Filling(groups, shares + [taken], totalLeft - taken, next)
    ensures Bounded(groups, shares + [taken])
  {
    var i := |shares|;
    var maxValue := Limit(groups[i]);
    assert groups[i] in groups;
    ProductFits(maxValue, |groups| - i);
    if Wrap64(maxValue * (|groups| - i)) <= totalLeft {
      TakeLimit(groups, shares, totalLeft, at);
      taken, next := maxValue, Taking;
    } else {
      taken := ShareOf(totalLeft, |groups| - i);
      next := TakeShare(groups, shares, totalLeft, at);
    }
  }

  /** Fills one priority class, sorted by limit, from `total`. `shares` lists what each group got. */
  method FillClass(groups: seq<ScalePolicy>, total: int) returns (shares: seq<int>, totalLeft: int)
    requires Sorted(groups) && Int32Limits(groups) && |groups| <= MAX_POLICIES
    requires 0 <= total && total + |groups| * 0x8000_0000 < 0x8000_0000_0000_0000
    ensures Filled(groups, shares, totalLeft) && Bounded(groups, shares)
    ensures Sum(shares) + totalLeft == total && totalLeft <= total + |groups| * 0x8000_0000
  {
    totalLeft := total;
    shares := [];
    ghost var at := Taking;
    for i := 0 to |groups|
      invariant |shares| == i && Sum(shares) + totalLeft == total && totalLeft <= total + i * 0x8000_0000
      invariant Filling(groups, shares, totalLeft, at) && Bounded(groups, shares)
    {
      var taken;
      taken, at := FillNext(groups, shares, totalLeft, at);
      Wrap32Fits(taken);
      Wrap64Fits(totalLeft - taken);
      SumSnoc(shares, taken);
      shares := shares + [Wrap32(taken)];
      totalLeft := Wrap64(totalLeft - taken);
    }
    FillingEnds(groups, shares, totalLeft, at);
  }

  ghost function Sum(s: seq<int>): int {
    if s == [] then 0 else s[0] + Sum(s[1..])
  }

  lemma {:induction false} SumSnoc(s: seq<int>, x: int)
    ensures Sum(s + [x]) == Sum(s) + x
  {
    if s != [] {
      assert (s + [x])[1..] == s[1..] + [x];
      SumSnoc(s[1..], x);
    } else {
      assert s + [x] == [x];
    }
  }

  // ---- All classes ----

  lemma {:induction false} AtSnoc(ps: seq<ScalePolicy>, p: ScalePolicy, priority: int)
    ensures At(ps + [p], priority) == At(ps, priority) + if p.priority == priority then [p] else []
  {
    if ps == [] {
      assert ps + [p] == [p];
    } else {
      assert (ps + [p])[1..] == ps[1..] + [p];
      AtSnoc(ps[1..], p, priority);
    }
  }

  ghost function Priorities(ps: seq<ScalePolicy>): (r: set<int>)
    ensures forall p :: p in ps ==> p.priority in r
    ensures forall k :: k in r ==> exists p :: p in ps && p.priority == k
  {
    set p | p in ps :: p.priority
  }

  ghost predicate Grouped(ps: seq<ScalePolicy>, byPriority: map<int, seq<ScalePolicy>>) {
    byPriority.Keys == Priorities(ps) && forall k :: k in byPriority ==> byPriority[k] == At(ps, k)
  }

  /** Groups the policies by priority. */
  method GroupByPriority(ps: seq<ScalePolicy>) returns (byPriority: map<int, seq<ScalePolicy>>)
    ensures Grouped(ps, byPriority)
  {
    byPriority := map[];
    ghost var done := [];
    for i := 0 to |ps|
      invariant done == ps[..i] && Grouped(done, byPriority)
    {
      byPriority := AddToClass(done, byPriority, ps[i]);
      done := done + [ps[i]];
    }
    assert ps[..|ps|] == ps;
  }

  method AddToClass(ghost done: seq<ScalePolicy>, byPriority: map<int, seq<ScalePolicy>>, p: ScalePolicy)
    returns (r: map<int, seq<ScalePolicy>>)
    requires Grouped(done, byPriority)
    ensures Grouped(done + [p], r)
  {
    if p.priority !in byPriority {
      r := byPriority[p.priority := [p]];
    } else {
      r := byPriority[p.priority := byPriority[p.priority] + [p]];
    }
    GroupedSnoc(done, p, byPriority, r);
  }

  lemma PrioritiesSnoc(ps: seq<ScalePolicy>, p: ScalePolicy)
    ensures Priorities(ps + [p]) == Priorities(ps) + {p.priority}
  {
    assert forall q :: q in ps + [p] <==> q in ps || q == p;
  }

  lemma ClassSnoc(ps: seq<ScalePolicy>, p: ScalePolicy, m: map<int, seq<ScalePolicy>>, k: int)
    requires Grouped(ps, m)
    ensures k in m ==> At(ps + [p], k) == m[k] + if p.priority == k then [p] else []
    ensures k !in m ==> At(ps + [p], k) == if p.priority == k then [p] else []
  {
    AtSnoc(ps, p, k);
    if k !in m { NoneAt(ps, k); }
  }

  lemma GroupedSnoc(ps: seq<ScalePolicy>, p: ScalePolicy, m: map<int, seq<ScalePolicy>>, n: map<int, seq<ScalePolicy>>)
    requires Grouped(ps, m)
    requires n == m[p.priority := if p.priority in m then m[p.priority] + [p] else [p]]
    ensures Grouped(ps + [p], n)
  {
    assert n.Keys == Priorities(ps + [p]) by {
      PrioritiesSnoc(ps, p);
      assert n.Keys == m.Keys + {p.priority};
    }
    forall k | k in n ensures n[k] == At(ps + [p], k) { ClassSnoc(ps, p, m, k); }
  }

  lemma NoneAt(ps: seq<ScalePolicy>, priority: int)
    requires priority !in Priorities(ps)
    ensures At(ps, priority) == []
  {
    HeadIsMember(At(ps, priority));
  }

  lemma HeadIsMember(ps: seq<ScalePolicy>)
    ensures ps != [] ==> exists p :: p in ps
  {
    if ps != [] { assert ps[0] in ps; }
  }

  /** Sorts every class; the map is visited in whatever order its iteration has. */
  method SortClasses(byPriority: map<int, seq<ScalePolicy>>) returns (r: map<int, seq<ScalePolicy>>)
    ensures r.Keys == byPriority.Keys
    ensures forall k :: k in byPriority ==> r[k] == SortByLimit(byPriority[k])
  {
    r := byPriority;
    var todo := byPriority.Keys;
    while todo != {}
      invariant todo <= r.Keys == byPriority.Keys
      invariant forall k :: k in r ==> r[k] == if k in todo then byPriority[k] else SortByLimit(byPriority[k])
      decreases todo
    {
      var k := AnyOf(todo);
      r := r[k := SortByLimit(r[k])];
      todo := todo - {k};
    }
  }

  method DescendingKeys(keys: set<int>) returns (r: seq<int>)
    ensures forall k :: k in r <==> k in keys
    ensures forall i, j :: 0 <= i < j < |r| ==> r[i] > r[j]
  {
    r := [];
    var todo := keys;
    while todo != {}
      invariant todo <= keys
      invariant forall k :: k in r <==> k in keys && k !in todo
      invariant forall i, j :: 0 <= i < j < |r| ==> r[i] > r[j]
      decreases todo
    {
      var k := AnyOf(todo);
      r := InsertDescending(k, r);
      todo := todo - {k};
    }
  }

  /** The state between two classes: `done` lists the groups served so far. */
  ghost predicate Distributed(ps: seq<ScalePolicy>, done: seq<ScalePolicy>, m: map<string, int>, totalLeft: int,
                              total: int) {
    && m.Keys == GroupSet(done)
    && AllAllowed(ps, total, done, m) && StrictPriority(done, m) && EvenInClass(done, m)
    && (total < 0 ==> totalLeft == total && Total(done, m) == 0)
    && (total >= 0 ==> totalLeft >= 0 && Total(done, m) + totalLeft == total)
    && (totalLeft > 0 ==> forall p :: p in done ==> Assigned(done, m, p) == Limit(p))
  }

  /** The groups above `k` are the ones served so far. */
  ghost predicate DoneAbove(ps: seq<ScalePolicy>, done: seq<ScalePolicy>, k: int) {
    forall p :: p in ps ==> (p in done <==> p.priority > k)
  }

  /** Something is left exactly if the next class is one of those to be served. */
  ghost predicate InStep(ps: seq<ScalePolicy>, done: seq<ScalePolicy>, totalLeft: int, total: int) {
    forall k :: DoneAbove(ps, done, k) ==> (totalLeft > 0 <==> Served(ps, total, k))
  }

  /** Writes the shares of one class into the result map. */
  method Record(m: map<string, int>, groups: seq<ScalePolicy>, shares: seq<int>) returns (r: map<string, int>)
    requires |shares| == |groups| && DistinctGroups(groups)
    ensures r.Keys == m.Keys + GroupSet(groups)
    ensures forall g :: g in m && g !in GroupSet(groups) ==> r[g] == m[g]
    ensures forall k :: 0 <= k < |groups| ==> groups[k].group in r && r[groups[k].group] == shares[k]
  {
    r := m;
    for i := 0 to |groups|
      invariant r.Keys == m.Keys + GroupSet(groups[..i])
      invariant forall g :: g in m && g !in GroupSet(groups[..i]) ==> r[g] == m[g]
      invariant forall k :: 0 <= k < i ==> groups[k].group in r && r[groups[k].group] == shares[k]
    {
      assert groups[..i + 1] == groups[..i] + [groups[i]];
      assert GroupSet(groups[..i + 1]) == GroupSet(groups[..i]) + {groups[i].group};
      r := r[groups[i].group := shares[i]];
    }
    assert groups[..|groups|] == groups;
  }

  lemma {:induction false} TotalAppend(ps: seq<ScalePolicy>, qs: seq<ScalePolicy>, m: map<string, int>)
    requires GroupSet(ps + qs) <= m.Keys
    ensures GroupSet(ps) <= m.Keys && GroupSet(qs) <= m.Keys
    ensures Total(ps + qs, m) == Total(ps, m) + Total(qs, m)
  {
    assert forall p :: p in ps || p in qs ==> p in ps + qs;
    if ps == [] {
      assert ps + qs == qs;
    } else {
      assert (ps + qs)[1..] == ps[1..] + qs;
      assert forall p :: p in ps[1..] + qs ==> p in ps + qs;
      TotalAppend(ps[1..], qs, m);
    }
  }

  lemma {:induction false} TotalOfShares(ps: seq<ScalePolicy>, shares: seq<int>, m: map<string, int>)
    requires |shares| == |ps| && GroupSet(ps) <= m.Keys
    requires forall k :: 0 <= k < |ps| ==> ps[k].group in m && m[ps[k].group] == shares[k]
    ensures Total(ps, m) == Sum(shares)
  {
    if ps != [] {
      assert forall p :: p in ps[1..] ==> p in ps;
      TotalOfShares(ps[1..], shares[1..], m);
    }
  }

  /** `n` extends `m` by giving `groups` the `shares`. */
  ghost predicate Extends(done: seq<ScalePolicy>, m: map<string, int>, groups: seq<ScalePolicy>, shares: seq<int>,
                          n: map<string, int>) {
    && m.Keys == GroupSet(done) && |shares| == |groups|
    && n.Keys == m.Keys + GroupSet(groups)
    && (forall g :: g in m && g !in GroupSet(groups) ==> n[g] == m[g])
    && (forall k :: 0 <= k < |groups| ==> groups[k].group in n && n[groups[k].group] == shares[k])
  }

  lemma ExtensionValues(done: seq<ScalePolicy>, m: map<string, int>, groups: seq<ScalePolicy>, shares: seq<int>,
                        n: map<string, int>)
    requires Extends(done, m, groups, shares, n) && DistinctGroups(done + groups)
    ensures n.Keys == GroupSet(done + groups)
    ensures forall p :: p in done + groups <==> p in done || p in groups
    ensures forall p :: p in done ==> p.group in n && n[p.group] == Assigned(done, m, p)
    ensures Total(done + groups, n) == Total(done, m) + Sum(shares)
  {
    var all := done + groups;
    assert forall p :: p in all <==> p in done || p in groups;
    assert GroupSet(all) == GroupSet(done) + GroupSet(groups);
    forall p, q | p in done && q in groups ensures p.group != q.group {
      var i :| 0 <= i < |done| && done[i] == p;
      var j :| 0 <= j < |groups| && groups[j] == q;
      assert all[i].group != all[|done| + j].group;
    }
    forall p | p in done ensures p.group in n && n[p.group] == Assigned(done, m, p) {
      assert p.group !in GroupSet(groups);
    }
    TotalAppend(done, groups, n);
    TotalFrame(done, m, n);
    TotalOfShares(groups, shares, n);
  }

  /** What a class gives out: nothing, or what filling it gives. */
  ghost predicate ClassServed(groups: seq<ScalePolicy>, shares: seq<int>, totalLeft: int, left: int) {
    && |shares| == |groups|
    && (totalLeft <= 0 ==> left == totalLeft && forall k :: 0 <= k < |groups| ==> shares[k] == 0)
    && (totalLeft > 0 ==> Filled(groups, shares, left) && Bounded(groups, shares) && Sum(shares) + left == totalLeft)
  }

  /** Serving the next class below keeps the state right. */
  lemma ClassDistributed(ps: seq<ScalePolicy>, done: seq<ScalePolicy>, m: map<string, int>, totalLeft: int, total: int,
                         groups: seq<ScalePolicy>, shares: seq<int>, n: map<string, int>, left: int, c: int)
    requires Distributed(ps, done, m, totalLeft, total) && (totalLeft > 0 <==> Served(ps, total, c))
    requires DistinctGroups(done + groups) && Sorted(groups) && Extends(done, m, groups, shares, n)
    requires forall p, q :: p in done && q in groups ==> p.priority > q.priority
    requires forall p :: p in groups ==> p.priority == c
    requires ClassServed(groups, shares, totalLeft, left)
    ensures Distributed(ps, done + groups, n, left, total)
  {
    if totalLeft <= 0 { SumOfZeros(shares); }
    ExtensionValues(done, m, groups, shares, n);
    AllowedAfterClass(ps, total, done, m, groups, shares, n, c);
    FullAfterClass(done, m, groups, shares, n, totalLeft, left);
    PriorityAfterClass(done, m, totalLeft, groups, shares, n);
    EvenAfterClass(done, m, groups, shares, n);
  }

  lemma AllowedAfterClass(ps: seq<ScalePolicy>, total: int, done: seq<ScalePolicy>, m: map<string, int>,
                          groups: seq<ScalePolicy>, shares: seq<int>, n: map<string, int>, c: int)
    requires GroupSet(done) <= m.Keys && GroupSet(done + groups) <= n.Keys && |shares| == |groups|
    requires AllAllowed(ps, total, done, m) && forall p :: p in groups ==> p.priority == c
    requires if Served(ps, total, c) then Bounded(groups, shares) else forall k :: 0 <= k < |groups| ==> shares[k] == 0
    requires forall k :: 0 <= k < |groups| ==> groups[k].group in n && n[groups[k].group] == shares[k]
    requires forall p :: p in done ==> p.group in n && n[p.group] == Assigned(done, m, p)
    ensures AllAllowed(ps, total, done + groups, n)
  {
    var all := done + groups;
    forall p | p in all ensures Allowed(ps, total, p, Assigned(all, n, p)) {
      if p in groups {
        var k :| 0 <= k < |groups| && groups[k] == p;
      } else {
        assert p in done && Allowed(ps, total, p, Assigned(done, m, p));
      }
    }
  }

  lemma FullAfterClass(done: seq<ScalePolicy>, m: map<string, int>, groups: seq<ScalePolicy>, shares: seq<int>,
                       n: map<string, int>, totalLeft: int, left: int)
    requires GroupSet(done) <= m.Keys && GroupSet(done + groups) <= n.Keys
    requires ClassServed(groups, shares, totalLeft, left)
    requires totalLeft > 0 ==> forall p :: p in done ==> Assigned(done, m, p) == Limit(p)
    requires forall k :: 0 <= k < |groups| ==> groups[k].group in n && n[groups[k].group] == shares[k]
    requires forall p :: p in done ==> p.group in n && n[p.group] == Assigned(done, m, p)
    ensures left > 0 ==> forall p :: p in done + groups ==> Assigned(done + groups, n, p) == Limit(p)
  {
    if left > 0 {
      forall p | p in done + groups ensures Assigned(done + groups, n, p) == Limit(p) {
        if p in groups { var k :| 0 <= k < |groups| && groups[k] == p; }
      }
    }
  }

  lemma AboveIsDone(ps: seq<ScalePolicy>, done: seq<ScalePolicy>, k: int, m: map<string, int>)
    requires DistinctGroups(ps) && DistinctGroups(done) && DoneAbove(ps, done, k) && m.Keys == GroupSet(done)
    requires forall p :: p in done ==> p in ps
    ensures Capacity(Above(ps, k)) == Capacity(done)
  {
    AboveKeepsDistinct(ps, k);
    DistinctSameMembers(Above(ps, k), done);
    SameMembers(Above(ps, k), done);
    SumsOfPermutation(Above(ps, k), done, m);
  }

  /** Serving one more class: the next one is served if this one is and all above it fall short. */
  lemma ServedNext(ps: seq<ScalePolicy>, total: int, done: seq<ScalePolicy>, m: map<string, int>, c: int, k: int)
    requires DistinctGroups(ps) && DistinctGroups(done) && m.Keys == GroupSet(done)
    requires DoneAbove(ps, done, k) && DoneAbove(ps, done, c - 1) && k < c && forall p :: p in done ==> p in ps
    ensures Served(ps, total, k) <==> Served(ps, total, c) && Capacity(done) < total
  {
    AboveIsDone(ps, done, k, m);
    if Served(ps, total, c) && Capacity(done) < total {
      forall t | t >= k ensures Capacity(Above(ps, t)) < total {
        if t < c {
          assert DoneAbove(ps, done, t);
          AboveIsDone(ps, done, t, m);
        }
      }
    }
  }

  lemma ClassInStep(ps: seq<ScalePolicy>, total: int, all: seq<ScalePolicy>, n: map<string, int>, totalLeft: int,
                    left: int, c: int)
    requires DistinctGroups(ps) && DistinctGroups(all) && forall p :: p in all ==> p in ps
    requires Distributed(ps, all, n, left, total) && (totalLeft > 0 <==> Served(ps, total, c))
    requires DoneAbove(ps, all, c - 1) && exists p :: p in all && p.priority == c
    requires totalLeft <= 0 ==> left <= 0
    requires totalLeft > 0 ==> total > 0 && forall p :: p in all ==> Served(ps, total, p.priority)
    ensures InStep(ps, all, left, total)
  {
    forall k | DoneAbove(ps, all, k) ensures left > 0 <==> Served(ps, total, k) {
      ServedNext(ps, total, all, n, c, k);
      if totalLeft > 0 {
        forall p | p in all ensures n[p.group] <= Limit(p) { assert Allowed(ps, total, p, Assigned(all, n, p)); }
        if left > 0 {
          forall p | p in all ensures n[p.group] == Limit(p) { assert Assigned(all, n, p) == Limit(p); }
        }
        TotalUpToCapacity(all, n);
      }
    }
  }

  lemma {:induction false} SumOfZeros(s: seq<int>)
    requires forall k :: 0 <= k < |s| ==> s[k] == 0
    ensures Sum(s) == 0
  {
    if s != [] { SumOfZeros(s[1..]); }
  }

  lemma PriorityAfterClass(done: seq<ScalePolicy>, m: map<string, int>, totalLeft: int, groups: seq<ScalePolicy>,
                           shares: seq<int>, n: map<string, int>)
    requires Extends(done, m, groups, shares, n) && DistinctGroups(done + groups) && StrictPriority(done, m)
    requires forall p, q :: p in groups && q in groups ==> p.priority == q.priority
    requires forall p, q :: p in done && q in groups ==> p.priority > q.priority
    requires totalLeft > 0 ==> forall p :: p in done ==> Assigned(done, m, p) == Limit(p)
    requires totalLeft <= 0 ==> forall k :: 0 <= k < |groups| ==> shares[k] == 0
    ensures GroupSet(done + groups) <= n.Keys && StrictPriority(done + groups, n)
  {
    var all := done + groups;
    ExtensionValues(done, m, groups, shares, n);
    forall p, q | p in all && q in all && p.priority > q.priority && Assigned(all, n, q) > 0
      ensures Assigned(all, n, p) == Limit(p)
    {
      if q in groups {
        assert p in done;
        var k :| 0 <= k < |groups| && groups[k] == q;
      } else {
        assert Assigned(done, m, q) > 0 && p in done;
      }
    }
  }

  lemma EvenAfterClass(done: seq<ScalePolicy>, m: map<string, int>, groups: seq<ScalePolicy>, shares: seq<int>,
                       n: map<string, int>)
    requires GroupSet(done) <= m.Keys && EvenInClass(done, m) && Sorted(groups)
    requires GroupSet(done + groups) <= n.Keys && |shares| == |groups|
    requires forall p, q :: p in done && q in groups ==> p.priority > q.priority
    requires forall k, l :: 0 <= k < l < |groups| && shares[k] < shares[l] ==> shares[k] == Limit(groups[k])
    requires forall k, l :: 0 <= k < l < |groups| ==> shares[k] <= shares[l] + 1
    requires forall k :: 0 <= k < |groups| ==> groups[k].group in n && n[groups[k].group] == shares[k]
    requires forall p :: p in done ==> p.group in n && n[p.group] == Assigned(done, m, p)
    ensures EvenInClass(done + groups, n)
  {
    var all := done + groups;
    assert forall p :: p in all <==> p in done || p in groups;
    forall p, q | p in all && q in all && p.priority == q.priority && Before(p, q)
      ensures Assigned(all, n, p) < Assigned(all, n, q) ==> Assigned(all, n, p) == Limit(p)
      ensures Assigned(all, n, p) <= Assigned(all, n, q) + 1
    {
      if p in groups && q in groups {
        var k :| 0 <= k < |groups| && groups[k] == p;
        var l :| 0 <= l < |groups| && groups[l] == q;
        if k >= l { SortedIndex(groups, l, k); }
      }
    }
  }

  lemma SortedIndex(groups: seq<ScalePolicy>, l: nat, k: nat)
    requires Sorted(groups) && l <= k < |groups|
    ensures !Before(groups[k], groups[l])
  {
    LessIrreflexive(groups[k].group);
    if l < k && Less(groups[l].group, groups[k].group) { LessAsymmetric(groups[l].group, groups[k].group); }
  }

  lemma {:induction false} AtKeepsDistinct(ps: seq<ScalePolicy>, priority: int)
    requires DistinctGroups(ps)
    ensures DistinctGroups(At(ps, priority))
  {
    if ps != [] {
      AtKeepsDistinct(ps[1..], priority);
      var rest := At(ps[1..], priority);
      forall j | 0 <= j < |rest| ensures rest[j].group != ps[0].group {
        assert rest[j] in rest;
        assert ps == [ps[0]] + ps[1..];
      }
    }
  }

  lemma DistinctAfterPermutation(ps: seq<ScalePolicy>, qs: seq<ScalePolicy>)
    requires multiset(ps) == multiset(qs) && Sorted(qs) && DistinctGroups(ps)
    ensures DistinctGroups(qs)
  {
    SameMembers(ps, qs);
    forall i, j | 0 <= i < j < |qs| ensures qs[i].group != qs[j].group {
      assert Before(qs[i], qs[j]);
      LessIrreflexive(qs[i].group);
      assert qs[i] in ps && qs[j] in ps;
    }
  }

  lemma DistinctAppend(ps: seq<ScalePolicy>, qs: seq<ScalePolicy>, all: seq<ScalePolicy>)
    requires DistinctGroups(ps) && DistinctGroups(qs) && DistinctGroups(all)
    requires forall p :: p in ps || p in qs ==> p in all
    requires forall p :: p in ps ==> p !in qs
    ensures DistinctGroups(ps + qs)
  {
    var s := ps + qs;
    forall i, j | 0 <= i < j < |s| ensures s[i].group != s[j].group {
      if i < |ps| <= j { assert s[i] in ps && s[j] in qs && s[i] != s[j]; }
    }
  }

  /** One entry of the map taken out of what is left to sum. */
  lemma TakeOut(rest: seq<ScalePolicy>, m: map<string, int>, g: string) returns (next: seq<ScalePolicy>)
    requires GroupSet(rest) <= m.Keys && DistinctGroups(rest) && g in GroupSet(rest)
    ensures GroupSet(next) == GroupSet(rest) - {g} && DistinctGroups(next)
    ensures Total(rest, m) == m[g] + Total(next, m)
  {
    var k :| 0 <= k < |rest| && rest[k].group == g;
    next := rest[..k] + rest[k + 1..];
    RestGroups(rest, k);
    TotalSplitAt(rest, k, m);
  }

  /** The final self-check: an int32 sum over the map in any order. */
  method SumReplicas(ghost ps: seq<ScalePolicy>, replicas: map<string, int>) returns (sum: int)
    requires DistinctGroups(ps) && replicas.Keys == GroupSet(ps)
    ensures sum == Wrap32(Total(ps, replicas))
  {
    sum := 0;
    var todo := replicas.Keys;
    ghost var rest := ps;
    while todo != {}
      invariant GroupSet(rest) == todo <= replicas.Keys && DistinctGroups(rest)
      invariant IsInt32(sum) && Wrap32(sum + Total(rest, replicas)) == Wrap32(Total(ps, replicas))
      decreases todo
    {
      var g := AnyOf(todo);
      ghost var next := TakeOut(rest, replicas, g);
      WrapAbsorbs(sum + replicas[g], Total(next, replicas));
      sum := Wrap32(sum + replicas[g]);
      rest, todo := next, todo - {g};
    }
    HeadGroup(rest);
    Wrap32Fits(sum);
  }

  lemma HeadGroup(ps: seq<ScalePolicy>)
    ensures ps != [] ==> ps[0].group in GroupSet(ps)
  {
    if ps != [] { assert ps[0] in ps; }
  }

  lemma RestMembers(ps: seq<ScalePolicy>, k: nat, p: ScalePolicy)
    requires DistinctGroups(ps) && k < |ps|
    ensures p in ps[..k] + ps[k + 1..] <==> p in ps && p.group != ps[k].group
  {
    var rest := ps[..k] + ps[k + 1..];
    if p in ps && p.group != ps[k].group {
      var i :| 0 <= i < |ps| && ps[i] == p;
      assert if i < k then rest[i] == p else rest[i - 1] == p;
    }
    if p in rest {
      var i :| 0 <= i < |rest| && rest[i] == p;
      assert if i < k then ps[i] == p else ps[i + 1] == p;
    }
  }

  lemma RestIsDistinct(ps: seq<ScalePolicy>, k: nat)
    requires DistinctGroups(ps) && k < |ps|
    ensures DistinctGroups(ps[..k] + ps[k + 1..])
  {
    var rest := ps[..k] + ps[k + 1..];
    assert forall i :: 0 <= i < |rest| ==> rest[i] == ps[if i < k then i else i + 1];
  }

  lemma RestGroups(ps: seq<ScalePolicy>, k: nat)
    requires DistinctGroups(ps) && k < |ps|
    ensures DistinctGroups(ps[..k] + ps[k + 1..])
    ensures GroupSet(ps[..k] + ps[k + 1..]) == GroupSet(ps) - {ps[k].group}
  {
    RestIsDistinct(ps, k);
    forall p ensures p in ps[..k] + ps[k + 1..] <==> p in ps && p.group != ps[k].group { RestMembers(ps, k, p); }
  }

  lemma ClassOf(ps: seq<ScalePolicy>, priority: int, groups: seq<ScalePolicy>)
    requires DistinctGroups(ps) && Int32Limits(ps)
    requires groups == SortByLimit(At(ps, priority))
    ensures Sorted(groups) && DistinctGroups(groups) && Int32Limits(groups) && |groups| <= |ps|
    ensures forall p :: p in groups <==> p in ps && p.priority == priority
  {
    AtKeepsDistinct(ps, priority);
    SortIsSorted(At(ps, priority));
    SameMembers(groups, At(ps, priority));
    DistinctAfterPermutation(At(ps, priority), groups);
    assert |multiset(groups)| == |multiset(At(ps, priority))|;
  }

  /** Once every class is served, the record of groups served is the policy list in another order. */
  lemma AllServed(ps: seq<ScalePolicy>, total: int, done: seq<ScalePolicy>, m: map<string, int>)
    requires DistinctGroups(ps) && DistinctGroups(done) && forall p :: p in done <==> p in ps
    requires m.Keys == GroupSet(done)
    requires AllAllowed(ps, total, done, m) && StrictPriority(done, m) && EvenInClass(done, m)
    ensures GroupSet(ps) == GroupSet(done)
    ensures AllAllowed(ps, total, ps, m) && StrictPriority(ps, m) && EvenInClass(ps, m)
    ensures Total(ps, m) == Total(done, m)
  {
    DistinctSameMembers(done, ps);
    SameMembers(done, ps);
    SumsOfPermutation(done, ps, m);
    assert forall p :: p in ps ==> Assigned(ps, m, p) == Assigned(done, m, p);
  }

  /** In the end something is left exactly if the total is out of reach. */
  lemma LeftIsOutOfReach(ps: seq<ScalePolicy>, done: seq<ScalePolicy>, totalLeft: int, total: int)
    requires (forall p :: p in done <==> p in ps) && InStep(ps, done, totalLeft, total)
    ensures totalLeft > 0 <==> !Reaches(ps, total)
  {
    var low, high := Bounds(ps);
    assert DoneAbove(ps, done, low);
    if Served(ps, total, low) {
      AllAbove(ps, low);
      forall t ensures Capacity(Above(ps, t)) < total {
        if t < low {
          assert forall p :: p in ps ==> p.priority > t;
          AllAbove(ps, t);
        }
      }
    }
  }

  /** What a round starts from: the classes above are served, and `groups` is the next one in order. */
  ghost predicate ClassReady(ps: seq<ScalePolicy>, groups: seq<ScalePolicy>, replicas: map<string, int>, totalLeft: int,
                             done: seq<ScalePolicy>, total: int, c: int) {
    && Distributed(ps, done, replicas, totalLeft, total) && (totalLeft > 0 <==> Served(ps, total, c))
    && DistinctGroups(done + groups) && Sorted(groups) && Int32Limits(groups) && |groups| <= MAX_POLICIES
    && totalLeft + |groups| * 0x8000_0000 < 0x8000_0000_0000_0000
    && (forall p, q :: p in done && q in groups ==> p.priority > q.priority)
    && forall p :: p in groups ==> p.priority == c
  }

  /** One round of the main loop: serves one class, or writes zeros when nothing is left. */
  method ServeClass(groups: seq<ScalePolicy>, replicas: map<string, int>, totalLeft: int,
                    ghost ps: seq<ScalePolicy>, ghost done: seq<ScalePolicy>, ghost total: int, ghost c: int)
    returns (next: map<string, int>, left: int)
    requires ClassReady(ps, groups, replicas, totalLeft, done, total, c)
    ensures Distributed(ps, done + groups, next, left, total)
    ensures totalLeft <= 0 ==> left == totalLeft
    ensures left <= totalLeft + |groups| * 0x8000_0000
  {
    assert DistinctGroups(groups) by { assert groups == (done + groups)[|done|..]; }
    var shares;
    if totalLeft <= 0 {
      shares, left := seq(|groups|, _ => 0), totalLeft;
    } else {
      shares, left := FillClass(groups, totalLeft);
    }
    next := Record(replicas, groups, shares);
    ClassDistributed(ps, done, replicas, totalLeft, total, groups, shares, next, left, c);
  }

  lemma NextClass(ps: seq<ScalePolicy>, done: seq<ScalePolicy>, priorities: seq<int>, i: nat, groups: seq<ScalePolicy>)
    requires DistinctGroups(ps) && Int32Limits(ps) && DistinctGroups(done)
    requires i < |priorities| && forall k, l :: 0 <= k < l < |priorities| ==> priorities[k] > priorities[l]
    requires forall p :: p in done <==> p in ps && p.priority in priorities[..i]
    requires groups == SortByLimit(At(ps, priorities[i]))
    ensures Sorted(groups) && Int32Limits(groups) && |groups| <= |ps| && DistinctGroups(done + groups)
    ensures forall p, q :: p in done && q in groups ==> p.priority > q.priority
    ensures forall p :: p in groups <==> p in ps && p.priority == priorities[i]
    ensures forall p :: p in done + groups <==> p in ps && p.priority in priorities[..i + 1]
  {
    ClassOf(ps, priorities[i], groups);
    PrioritiesStep(priorities, i);
    forall p | p in done ensures p !in groups {}
    DistinctAppend(done, groups, ps);
  }

  lemma PrioritiesStep(priorities: seq<int>, i: nat)
    requires i < |priorities| && forall k, l :: 0 <= k < l < |priorities| ==> priorities[k] > priorities[l]
    ensures forall k :: k in priorities[..i] ==> k > priorities[i]
    ensures forall k :: k in priorities[..i + 1] <==> k in priorities[..i] || k == priorities[i]
  {
    assert priorities[..i + 1] == priorities[..i] + [priorities[i]];
  }

  /** The priorities before the i-th are those above it. */
  lemma PrioritiesAbove(ps: seq<ScalePolicy>, done: seq<ScalePolicy>, priorities: seq<int>, i: nat)
    requires i < |priorities| && forall k, l :: 0 <= k < l < |priorities| ==> priorities[k] > priorities[l]
    requires forall k :: k in priorities <==> k in Priorities(ps)
    requires forall p :: p in done <==> p in ps && p.priority in priorities[..i]
    ensures DoneAbove(ps, done, priorities[i])
  {
    PrioritiesStep(priorities, i);
    forall p | p in ps && p.priority > priorities[i] ensures p.priority in priorities[..i] {
      assert p.priority in priorities;
      var j :| 0 <= j < |priorities| && priorities[j] == p.priority;
      assert j < i;
      assert priorities[..i][j] == p.priority;
    }
  }

  lemma NothingServed(ps: seq<ScalePolicy>, total: int)
    ensures InStep(ps, [], total, total)
  {
    forall k | DoneAbove(ps, [], k) ensures total > 0 <==> Served(ps, total, k) {
      forall t | t >= k ensures Capacity(Above(ps, t)) == 0 { NothingAbove(ps, t); }
      assert Capacity(Above(ps, k)) == 0;
    }
  }

  lemma DistinctIsShort(done: seq<ScalePolicy>, ps: seq<ScalePolicy>)
    requires DistinctGroups(done) && DistinctGroups(ps) && forall p :: p in done ==> p in ps
    ensures |done| <= |ps|
  {
    forall p ensures multiset(done)[p] <= multiset(ps)[p] {
      OccursOnce(done, p);
      OccursOnce(ps, p);
    }
    assert multiset(ps) == multiset(done) + (multiset(ps) - multiset(done));
  }

  /** `SplitReplicas`. The result is `None` where the operator panics. */
  method SplitReplicas(scalePolicy: seq<ScalePolicy>, specReplicas: Option<int>) returns (r: Option<map<string, int>>)
    requires DistinctGroups(scalePolicy) && Int32Limits(scalePolicy) && IsInt32(Deref(specReplicas))
    requires |scalePolicy| <= MAX_POLICIES
    ensures r == SplitSigned(scalePolicy, Deref(specReplicas))
    ensures specReplicas == None ==> r == SplitSigned(scalePolicy, 0)
    ensures specReplicas.Some? ==> r == SplitSigned(scalePolicy, specReplicas.value)
  {
    var total := Deref(specReplicas);
    var byPriority := GroupByPriority(scalePolicy);
    var groupsByPriority := SortClasses(byPriority);
    var priorities := DescendingKeys(groupsByPriority.Keys);
    var totalLeft, replicas := total, map[];
    ghost var done: seq<ScalePolicy> := [];
    NothingServed(scalePolicy, total);
    for i := 0 to |priorities|
      invariant RoundsDone(scalePolicy, priorities, i, done, replicas, totalLeft, total)
    {
      assert priorities[i] in priorities;
      ghost var more := done + groupsByPriority[priorities[i]];
      replicas, totalLeft :=
        ServeNext(scalePolicy, priorities, i, groupsByPriority[priorities[i]], replicas, totalLeft, done, total);
      done := more;
    }
    assert priorities[..|priorities|] == priorities;
    r := Check(scalePolicy, total, replicas, done, totalLeft);
  }

  ghost predicate Descend(ps: seq<ScalePolicy>, priorities: seq<int>) {
    && (forall k :: k in priorities <==> k in Priorities(ps))
    && forall k, l :: 0 <= k < l < |priorities| ==> priorities[k] > priorities[l]
  }

  /** The state before the i-th round. */
  ghost predicate RoundsDone(ps: seq<ScalePolicy>, priorities: seq<int>, i: nat, done: seq<ScalePolicy>,
                             m: map<string, int>, totalLeft: int, total: int) {
    && i <= |priorities| && DistinctGroups(done)
    && (forall p :: p in done <==> p in ps && p.priority in priorities[..i])
    && Distributed(ps, done, m, totalLeft, total) && InStep(ps, done, totalLeft, total)
    && totalLeft <= MAX_INT32 + |done| * 0x8000_0000
  }

  method ServeNext(ghost ps: seq<ScalePolicy>, ghost priorities: seq<int>, ghost i: nat, groups: seq<ScalePolicy>,
                   replicas: map<string, int>, totalLeft: int, ghost done: seq<ScalePolicy>, ghost total: int)
    returns (next: map<string, int>, left: int)
    requires DistinctGroups(ps) && Int32Limits(ps) && |ps| <= MAX_POLICIES && Descend(ps, priorities)
    requires i < |priorities| && RoundsDone(ps, priorities, i, done, replicas, totalLeft, total)
    requires groups == SortByLimit(At(ps, priorities[i]))
    ensures RoundsDone(ps, priorities, i + 1, done + groups, next, left, total)
  {
    RoundBegins(ps, priorities, i, groups, replicas, totalLeft, done, total);
    next, left := ServeClass(groups, replicas, totalLeft, ps, done, total, priorities[i]);
    RoundEnds(ps, priorities, i, groups, replicas, totalLeft, done, total, next, left);
  }

  lemma RoundBegins(ps: seq<ScalePolicy>, priorities: seq<int>, i: nat, groups: seq<ScalePolicy>,
                    replicas: map<string, int>, totalLeft: int, done: seq<ScalePolicy>, total: int)
    requires DistinctGroups(ps) && Int32Limits(ps) && |ps| <= MAX_POLICIES && Descend(ps, priorities)
    requires i < |priorities| && RoundsDone(ps, priorities, i, done, replicas, totalLeft, total)
    requires groups == SortByLimit(At(ps, priorities[i]))
    ensures ClassReady(ps, groups, replicas, totalLeft, done, total, priorities[i])
  {
    NextClass(ps, done, priorities, i, groups);
    PrioritiesAbove(ps, done, priorities, i);
    DistinctIsShort(done + groups, ps);
  }

  lemma RoundEnds(ps: seq<ScalePolicy>, priorities: seq<int>, i: nat, groups: seq<ScalePolicy>,
                  replicas: map<string, int>, totalLeft: int, done: seq<ScalePolicy>, total: int,
                  next: map<string, int>, left: int)
    requires DistinctGroups(ps) && Int32Limits(ps) && Descend(ps, priorities)
    requires i < |priorities| && RoundsDone(ps, priorities, i, done, replicas, totalLeft, total)
    requires groups == SortByLimit(At(ps, priorities[i])) && Distributed(ps, done + groups, next, left, total)
    requires (totalLeft <= 0 ==> left == totalLeft) && left <= totalLeft + |groups| * 0x8000_0000
    ensures RoundsDone(ps, priorities, i + 1, done + groups, next, left, total)
  {
    NextClass(ps, done, priorities, i, groups);
    PrioritiesAbove(ps, done, priorities, i);
    RoundInStep(ps, priorities, i, groups, done, next, totalLeft, left, total);
  }

  lemma RoundInStep(ps: seq<ScalePolicy>, priorities: seq<int>, i: nat, groups: seq<ScalePolicy>,
                    done: seq<ScalePolicy>, n: map<string, int>, totalLeft: int, left: int, total: int)
    requires DistinctGroups(ps) && Descend(ps, priorities) && i < |priorities| && DistinctGroups(done + groups)
    requires forall p :: p in done ==> p in ps
    requires forall p :: p in groups <==> p in ps && p.priority == priorities[i]
    requires Distributed(ps, done + groups, n, left, total) && DoneAbove(ps, done, priorities[i])
    requires totalLeft > 0 <==> Served(ps, total, priorities[i])
    requires totalLeft <= 0 ==> left <= 0
    ensures InStep(ps, done + groups, left, total)
  {
    assert priorities[i] in priorities;
    var p :| p in ps && p.priority == priorities[i];
    NextInStep(ps, total, done, groups, n, totalLeft, left, p);
  }

  lemma ServedIsPositive(ps: seq<ScalePolicy>, total: int, c: int)
    ensures Served(ps, total, c) ==> total > 0
  {
    var low, high := Bounds(ps);
    var t := if c > high then c else high;
    NothingAbove(ps, t);
    assert Capacity(Above(ps, t)) == 0;
  }

  lemma NextInStep(ps: seq<ScalePolicy>, total: int, done: seq<ScalePolicy>, groups: seq<ScalePolicy>, n: map<string,
                   int>,
                   totalLeft: int, left: int, p: ScalePolicy)
    requires DistinctGroups(ps) && DistinctGroups(done + groups) && forall q :: q in done ==> q in ps
    requires p in ps && forall q :: q in groups <==> q in ps && q.priority == p.priority
    requires Distributed(ps, done + groups, n, left, total) && DoneAbove(ps, done, p.priority)
    requires totalLeft > 0 <==> Served(ps, total, p.priority)
    requires totalLeft <= 0 ==> left <= 0
    ensures InStep(ps, done + groups, left, total)
  {
    var all := done + groups;
    ServedIsPositive(ps, total, p.priority);
    forall q | q in all ensures q in ps && q.priority >= p.priority {}
    assert p in groups && p in all;
    ClassInStep(ps, total, all, n, totalLeft, left, p.priority);
  }

  /** The self-check at the end: `None` is the panic. */
  method Check(ghost scalePolicy: seq<ScalePolicy>, total: int, replicas: map<string, int>,
               ghost done: seq<ScalePolicy>, ghost totalLeft: int)
    returns (r: Option<map<string, int>>)
    requires DistinctGroups(scalePolicy) && IsInt32(total)
    requires Distributed(scalePolicy, done, replicas, totalLeft, total) && DistinctGroups(done)
    requires InStep(scalePolicy, done, totalLeft, total) && forall p :: p in done <==> p in scalePolicy
    ensures r == SplitSigned(scalePolicy, total)
  {
    AllServed(scalePolicy, total, done, replicas);
    LeftIsOutOfReach(scalePolicy, done, totalLeft, total);
    var sum := SumReplicas(scalePolicy, replicas);
    FinalSum(scalePolicy, total, replicas, done, totalLeft);
    r := if sum != total then None else Some(replicas);
  }

  /** What the self-check's sum says. */
  lemma FinalSum(ps: seq<ScalePolicy>, total: int, m: map<string, int>, done: seq<ScalePolicy>, totalLeft: int)
    requires DistinctGroups(ps) && IsInt32(total) && m.Keys == GroupSet(ps)
    requires Distributed(ps, done, m, totalLeft, total) && (forall p :: p in done <==> p in ps)
    requires AllAllowed(ps, total, ps, m) && StrictPriority(ps, m) && EvenInClass(ps, m)
    requires Total(ps, m) == Total(done, m)
    requires totalLeft > 0 <==> !Reaches(ps, total)
    ensures SplitSigned(ps, total) == if Wrap32(Total(ps, m)) == total then Some(m) else None
  {
    if total < 0 {
      Wrap32Fits(0);
    } else if totalLeft == 0 {
      Wrap32Fits(total);
      SignedMapIsSplit(ps, total);
      SignedSplitIsUnique(ps, total, m, SignedMap(ps, total));
    } else {
      forall p | p in ps ensures m[p.group] == Limit(p) { assert Assigned(done, m, p) == Limit(p); }
      AllFull(ps, m);
    }
  }
}
