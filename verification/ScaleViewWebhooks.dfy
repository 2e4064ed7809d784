/** The admission webhooks of scale views: what they fill in, what they accept, what they freeze. */
module ScaleViewWebhooks {
  import opened Lex
  import opened Integers
  import opened Allocation
  import opened AllocationLaws
  import opened SignedAllocation
  import opened ScaleViewLocks
  import opened LockGuard

  ghost predicate SomeUnlimited(ps: seq<ScalePolicy>) {
    exists p :: p in ps && p.maxReplicas.None?
  }

  /** Sums the limits in int32 and stops at the first group without one. */
  method GetScaleViewMaxConstraints(ps: seq<ScalePolicy>) returns (maxValue: int)
    ensures SomeUnlimited(ps) ==> maxValue == MAX_INT32
    ensures !SomeUnlimited(ps) ==> maxValue == Wrap32(Capacity(ps))
  {
    maxValue := 0;
    for i := 0 to |ps|
      invariant forall k :: 0 <= k < i ==> ps[k].maxReplicas.Some?
      invariant Wrap32(maxValue + Capacity(ps[i..])) == Wrap32(Capacity(ps))
      invariant IsInt32(maxValue)
    {
      if ps[i].maxReplicas.None? {
        assert ps[i] in ps;
        maxValue := MAX_INT32;
        return;
      }
      WrapAbsorbs(maxValue + ps[i].maxReplicas.value, Capacity(ps[i + 1..]));
      maxValue := Wrap32(maxValue + ps[i].maxReplicas.value);
    }
    Wrap32Fits(maxValue);
  }

  ghost predicate ObjectAccepted(sv: ScaleView) {
    && sv.targetRef.name != "" && sv.targetRef.uid.Some? && sv.scalePolicy != []
    && (SomeUnlimited(sv.scalePolicy) || Wrap32(Capacity(sv.scalePolicy)) == MAX_INT32)
  }

  method ValidateObject(sv: ScaleView) returns (fieldErrs: nat)
    ensures fieldErrs == 0 <==> ObjectAccepted(sv)
    ensures fieldErrs == 0 ==> sv.targetRef.name != "" && sv.targetRef.uid != None && |sv.scalePolicy| > 0
    ensures fieldErrs == 0 && (forall p :: p in sv.scalePolicy ==> p.maxReplicas != None) ==>
              Wrap32(Capacity(sv.scalePolicy)) == 0x7FFF_FFFF
    ensures fieldErrs > 0 ==>
              || sv.targetRef.name == "" || sv.targetRef.uid == None || sv.scalePolicy == []
              || ((forall p :: p in sv.scalePolicy ==> p.maxReplicas != None)
                  && Wrap32(Capacity(sv.scalePolicy)) != 0x7FFF_FFFF)
  {
    fieldErrs := 0;
    if sv.targetRef.name == "" { fieldErrs := fieldErrs + 1; }
    if sv.targetRef.uid.None? { fieldErrs := fieldErrs + 1; }
    if sv.scalePolicy == [] { fieldErrs := fieldErrs + 1; }
    var maxValue := GetScaleViewMaxConstraints(sv.scalePolicy);
    if maxValue != MAX_INT32 { fieldErrs := fieldErrs + 1; }
  }

  lemma {:induction false} CapacityAtLeast(ps: seq<ScalePolicy>, p: ScalePolicy)
    requires forall q :: q in ps ==> Limit(q) >= 0
    ensures Capacity(ps) >= 0 && (p in ps ==> Capacity(ps) >= Limit(p))
  {
    if ps != [] {
      assert ps[0] in ps && forall q :: q in ps[1..] ==> q in ps;
      CapacityAtLeast(ps[1..], p);
    }
  }

  lemma WrapToMax(x: int)
    requires x >= 0 && Wrap32(x) == MAX_INT32
    ensures x >= MAX_INT32
  {}

  /** The allocator panics on an accepted scale view for a negative total, and for one that no prefix of the
      classes has room for unless the sum of all limits wraps to it. Without negative limits every total from
      zero on is within reach. This needs no bound on the sum of the limits, since a non-negative sum that
      wraps to the largest int32 is itself at least that large. */
  lemma AcceptedNeverPanics(sv: ScaleView)
    requires SchemaValid(sv) && ObjectAccepted(sv)
    ensures SplitOf(sv).None? <==>
            TotalOf(sv) < 0 || (!InReach(sv) && Wrap32(Capacity(sv.scalePolicy)) != TotalOf(sv))
    ensures NonNegativeLimits(sv.scalePolicy) ==> Capacity(sv.scalePolicy) >= MAX_INT32 && InReach(sv)
    ensures NonNegativeLimits(sv.scalePolicy) ==> (SplitOf(sv).None? <==> TotalOf(sv) < 0)
  {
    var ps := sv.scalePolicy;
    if NonNegativeLimits(ps) {
      if SomeUnlimited(ps) {
        var p :| p in ps && p.maxReplicas.None?;
        CapacityAtLeast(ps, p);
      } else {
        CapacityAtLeast(ps, ps[0]);
        WrapToMax(Capacity(ps));
      }
      ReachIsCapacity(ps, TotalOf(sv));
    }
  }

  /** `target` is the uid and the lock records of the target object, or nothing if it cannot be read. */
  method ValidateCreate(sv: ScaleView, target: Option<(nat, seq<Lock>)>) returns (accepted: bool)
    requires SchemaValid(sv)
    ensures accepted <==> ObjectAccepted(sv) && target.Some? && sv.targetRef.uid == Some(target.value.0)
                          && Grab(target.value.1, sv).Ok?
  {
    var fieldErrs := ValidateObject(sv);
    if fieldErrs > 0 || target.None? || sv.targetRef.uid != Some(target.value.0) {
      return false;
    }
    var manager := new ScaleViewLockManager(target.value.1);
    var err := manager.GrabScaleViewLockFor(sv);
    accepted := err.None?;
  }

  // ---- Updates: the groups are frozen ----

  function Groups(ps: seq<ScalePolicy>): (r: seq<string>)
    ensures |r| == |ps| && forall i :: 0 <= i < |ps| ==> r[i] == ps[i].group
  {
    if ps == [] then [] else [ps[0].group] + Groups(ps[1..])
  }

  function InsertString(x: string, s: seq<string>): (r: seq<string>)
    ensures multiset(r) == multiset(s) + multiset{x}
  {
    if s == [] || Less(x, s[0]) then [x] + s
    else
      assert s == [s[0]] + s[1..];
      [s[0]] + InsertString(x, s[1..])
  }

  /** `sort.Strings`. */
  function SortStrings(s: seq<string>): (r: seq<string>)
    ensures multiset(r) == multiset(s)
  {
    if s == [] then []
    else
      assert s == [s[0]] + s[1..];
      InsertString(s[0], SortStrings(s[1..]))
  }

  ghost predicate InOrder(s: seq<string>) {
    forall i, j :: 0 <= i < j < |s| ==> !Less(s[j], s[i])
  }

  lemma NotLessTransitive(a: string, b: string, c: string)
    requires !Less(b, a) && !Less(c, b)
    ensures !Less(c, a)
  {
    LessTotal(a, b);
    LessTotal(b, c);
    if Less(a, b) && Less(b, c) { LessTransitive(a, b, c); }
    if Less(a, c) { LessAsymmetric(a, c); }
  }

  lemma {:induction false} InsertInOrder(x: string, s: seq<string>)
    requires InOrder(s)
    ensures InOrder(InsertString(x, s))
  {
    if s != [] {
      if Less(x, s[0]) {
        LessAsymmetric(x, s[0]);
        forall j | 0 <= j < |s| ensures !Less(s[j], x) {
          if j > 0 { NotLessTransitive(x, s[0], s[j]); }
        }
      } else {
        InsertInOrder(x, s[1..]);
        var r := InsertString(x, s[1..]);
        forall j | 0 <= j < |r| ensures !Less(r[j], s[0]) {
          assert r[j] in multiset(r);
          assert r[j] == x || r[j] in s[1..];
        }
      }
    }
  }

  lemma {:induction false} SortInOrder(s: seq<string>)
    ensures InOrder(SortStrings(s))
  {
    if s != [] {
      SortInOrder(s[1..]);
      InsertInOrder(s[0], SortStrings(s[1..]));
    }
  }

  lemma SmallestFirst(s: seq<string>, t: seq<string>)
    requires InOrder(s) && s != [] && t != [] && multiset(s) == multiset(t)
    ensures !Less(t[0], s[0])
  {
    assert t[0] in multiset(s);
    var j :| 0 <= j < |s| && s[j] == t[0];
    LessIrreflexive(s[0]);
  }

  lemma {:induction false} OrderedIsUnique(s: seq<string>, t: seq<string>)
    requires InOrder(s) && InOrder(t) && multiset(s) == multiset(t)
    ensures s == t
  {
    assert |s| == |multiset(s)| == |multiset(t)| == |t|;
    if s != [] {
      SmallestFirst(s, t);
      SmallestFirst(t, s);
      LessTotal(s[0], t[0]);
      TailMultiset(s);
      TailMultiset(t);
      OrderedIsUnique(s[1..], t[1..]);
      assert s == [s[0]] + s[1..] && t == [t[0]] + t[1..];
    }
  }

  lemma TailMultiset(s: seq<string>)
    requires s != []
    ensures multiset(s[1..]) == multiset(s) - multiset{s[0]}
  {
    assert s == [s[0]] + s[1..];
  }

  ghost predicate UpdateAccepted(was: ScaleView, now: ScaleView) {
    && ObjectAccepted(now)
    && was.targetRef == now.targetRef && was.labelSelector == now.labelSelector
    && multiset(Groups(was.scalePolicy)) == multiset(Groups(now.scalePolicy))
  }

  function Pair(x: string, y: string, limit: Option<int>): seq<ScalePolicy> {
    [ScalePolicy(x, 0, limit), ScalePolicy(y, 0, None)]
  }

  /** An update may set a negative limit. Then its group is given that number, the other group what this
      adds to the total, and the allocator panics once that is more than the largest int32. */
  lemma UpdateBringsNegativeLimit(was: ScaleView, now: ScaleView, x: string, y: string, limit: int, total: int)
    requires x != y && ObjectAccepted(was) && was.scalePolicy == Pair(x, y, None)
    requires limit < 0 < total <= MAX_INT32 && IsInt32(limit)
    requires now == was.(scalePolicy := Pair(x, y, Some(limit)), replicas := Some(total))
    ensures UpdateAccepted(was, now)
    ensures SplitOf(now) == if total - limit <= MAX_INT32 then Some(map[x := limit, y := total - limit]) else None
  {
    var ps := now.scalePolicy;
    LimitKeepsGroups(x, y, limit);
    assert ps[1] in ps && ps[1].maxReplicas.None?;
    OneClass(ps, total);
    if total - limit <= MAX_INT32 {
      OneDebt(ps, x, y, limit, total);
    } else {
      Wrap32Fits(Capacity(ps));
    }
  }

  lemma LimitKeepsGroups(x: string, y: string, limit: int)
    ensures Groups(Pair(x, y, None)) == Groups(Pair(x, y, Some(limit)))
  {}

  lemma OneClass(ps: seq<ScalePolicy>, total: int)
    requires |ps| == 2 && ps[0].priority == ps[1].priority == 0 && total > 0
    ensures Capacity(ps) == Limit(ps[0]) + Limit(ps[1])
    ensures Reaches(ps, total) <==> Capacity(ps) >= total
    ensures Served(ps, total, 0)
  {
    assert ps[1..][1..] == [];
    assert Capacity(ps) == Limit(ps[0]) + Capacity(ps[1..]);
    assert Capacity(ps[1..]) == Limit(ps[1]) + Capacity(ps[1..][1..]);
    forall t ensures Capacity(Above(ps, t)) == if t < 0 then Capacity(ps) else 0 {
      if t < 0 { AllAbove(ps, t); } else { NothingAbove(ps, t); }
    }
    assert Capacity(Above(ps, -1)) == Capacity(ps);
  }

  lemma TwoAddUp(ps: seq<ScalePolicy>, m: map<string, int>)
    requires |ps| == 2 && ps[0].group in m && ps[1].group in m
    ensures GroupSet(ps) == {ps[0].group, ps[1].group} <= m.Keys
    ensures Total(ps, m) == m[ps[0].group] + m[ps[1].group]
  {
    assert forall p :: p in ps <==> p == ps[0] || p == ps[1];
    assert ps[1..][1..] == [];
    assert GroupSet(ps[1..]) == {ps[1].group} by { assert forall p :: p in ps[1..] <==> p == ps[1]; }
    assert Total(ps[1..], m) == m[ps[1].group] + Total(ps[1..][1..], m);
    assert Total(ps, m) == m[ps[0].group] + Total(ps[1..], m);
  }

  lemma OneDebt(ps: seq<ScalePolicy>, x: string, y: string, limit: int, total: int)
    requires x != y && ps == Pair(x, y, Some(limit)) && limit < 0 < total && total - limit <= MAX_INT32
    requires Reaches(ps, total) && Served(ps, total, 0)
    ensures SplitSigned(ps, total) == Some(map[x := limit, y := total - limit])
  {
    var m := map[x := limit, y := total - limit];
    TwoAddUp(ps, m);
    forall p | p in ps ensures p == ps[0] || p == ps[1] {}
    assert IsSignedSplit(ps, total, m);
    SignedMapIsSplit(ps, total);
    SignedSplitIsUnique(ps, total, m, SignedMap(ps, total));
  }

  /** The webhook compares sorted lists of group names, which is to compare them as multisets. */
  method ValidateUpdate(was: ScaleView, now: ScaleView) returns (accepted: bool)
    ensures accepted <==> UpdateAccepted(was, now)
    ensures accepted ==> was.targetRef == now.targetRef && was.labelSelector == now.labelSelector
    ensures accepted && DistinctGroups(was.scalePolicy) ==> |now.scalePolicy| == |was.scalePolicy|
  {
    var fieldErrs := ValidateObject(now);
    if fieldErrs > 0 {
      return false;
    }
    var oldGroupList, newGroupList := SortStrings(Groups(was.scalePolicy)), SortStrings(Groups(now.scalePolicy));
    if multiset(oldGroupList) == multiset(newGroupList) {
      SortInOrder(Groups(was.scalePolicy));
      SortInOrder(Groups(now.scalePolicy));
      OrderedIsUnique(oldGroupList, newGroupList);
    }
    accepted :=
      was.targetRef == now.targetRef && was.labelSelector == now.labelSelector && oldGroupList == newGroupList;
  }

  lemma GroupsAsSet(ps: seq<ScalePolicy>)
    ensures GroupSet(ps) == set g | g in multiset(Groups(ps))
  {
    var gs := Groups(ps);
    forall p | p in ps ensures p.group in multiset(gs) {
      var i :| 0 <= i < |ps| && ps[i] == p;
      assert gs[i] in gs;
    }
    forall g | g in multiset(gs) ensures g in GroupSet(ps) {
      assert g in gs;
      var i :| 0 <= i < |gs| && gs[i] == g;
      assert ps[i] in ps;
    }
  }

  /** An accepted update cannot change which groups are locked, or on which component. */
  lemma UpdateFreezesGroups(was: ScaleView, now: ScaleView)
    requires UpdateAccepted(was, now)
    ensures GroupSet(was.scalePolicy) == GroupSet(now.scalePolicy) && was.targetRef == now.targetRef
  {
    GroupsAsSet(was.scalePolicy);
    GroupsAsSet(now.scalePolicy);
  }

  // ---- Creation: the initial total is what the groups have now ----

  ghost function GroupTotal(ps: seq<ScalePolicy>, groups: seq<NodeGroup>): int {
    if ps == [] then 0
    else OldValue(groups, GroupLock(ps[0].group, 0)) + GroupTotal(ps[1..], groups)
  }

  function DefaultPolicies(groups: seq<NodeGroup>): (r: seq<ScalePolicy>)
    ensures |r| == |groups|
    ensures forall i :: 0 <= i < |r| ==> r[i] == ScalePolicy(groups[i].name, 0, None)
  {
    if groups == [] then [] else [ScalePolicy(groups[0].name, 0, None)] + DefaultPolicies(groups[1..])
  }

  /** One policy a node group, in the same order, of priority zero and without a limit. */
  ghost predicate IsDefault(ps: seq<ScalePolicy>, groups: seq<NodeGroup>) {
    && |ps| == |groups|
    && forall i :: 0 <= i < |ps| ==> ps[i].group == groups[i].name && ps[i].priority == 0 && ps[i].maxReplicas == None
  }

  /** The groups of a new scale view: those it names, or all groups of the component. */
  ghost function EffectivePolicies(ps: seq<ScalePolicy>, groups: seq<NodeGroup>): seq<ScalePolicy> {
    if ps == [] then DefaultPolicies(groups) else ps
  }

  ghost predicate InRange(p: ScalePolicy, groups: seq<NodeGroup>) {
    Read(groups, p.group).Some? && (p.maxReplicas.Some? ==> Read(groups, p.group).value <= p.maxReplicas.value)
  }

  ghost predicate Creatable(ps: seq<ScalePolicy>, groups: seq<NodeGroup>) {
    forall k :: 0 <= k < |ps| ==> InRange(ps[k], groups)
  }

  /** What reading the target object gives. A read that fails for another reason than the object's
      absence is ignored, and the webhook goes on with an empty object. */
  datatype TargetRead = Found(uid: nat, components: Components) | NotFound | Unreadable

  function UidOf(target: TargetRead): Option<nat> {
    if target.Found? then Some(target.uid) else None
  }

  function GroupsIn(target: TargetRead, c: Component): seq<NodeGroup> {
    if target.Found? then target.components.Get(c) else []
  }

  function ComponentName(c: Component): string {
    match c
    case Meta => "meta"
    case Frontend => "frontend"
    case Compute => "compute"
    case Compactor => "compactor"
  }

  function LabelSelector(target: TargetRef, ps: seq<ScalePolicy>): string {
    "risingwave/name=" + target.name + ",risingwave/component=" + ComponentName(target.component)
    + ",risingwave/group in (" + Join(Groups(ps), ',') + ")"
  }

  /** The text of the selector: the name of the object, the word for the component, and the groups in order. */
  lemma SelectorText(target: TargetRef, ps: seq<ScalePolicy>, word: string)
    requires word == match target.component
                     case Meta => "meta" case Frontend => "frontend" case Compute => "compute" case _ => "compactor"
    ensures LabelSelector(target, ps) == "risingwave/name=" + target.name + ",risingwave/component=" + word
                                         + ",risingwave/group in (" + Join(Groups(ps), ',') + ")"
  {}

  /** The mutating webhook. Accepts exactly when the uid is unset, the target is not absent and every
      group exists within its limit; then uid, groups, label selector and the int32 sum of the current
      replicas are filled in and nothing else changes. */
  method SetDefault(sv: ScaleView, target: TargetRead) returns (accepted: bool, r: ScaleView)
    ensures var groups := GroupsIn(target, sv.targetRef.component);
      var ps := EffectivePolicies(sv.scalePolicy, groups);
      && (accepted <==> sv.targetRef.uid.None? && !target.NotFound? && Creatable(ps, groups))
      && (accepted ==> r == sv.(targetRef := sv.targetRef.(uid := UidOf(target)), scalePolicy := ps,
                                labelSelector := LabelSelector(sv.targetRef, ps),
                                replicas := Some(Wrap32(GroupTotal(ps, groups)))))
    ensures accepted && target.Found? ==> r.targetRef.uid == Some(target.uid)
    ensures accepted && target.Unreadable? ==>
              r.targetRef.uid == None && r.scalePolicy == [] && r.replicas == Some(0)
    ensures accepted && sv.scalePolicy != [] ==> r.scalePolicy == sv.scalePolicy
    ensures accepted && sv.scalePolicy == [] ==> IsDefault(r.scalePolicy, GroupsIn(target, sv.targetRef.component))
  {
    r := sv;
    if sv.targetRef.uid.Some? || target.NotFound? {
      return false, sv;
    }
    var groups := GroupsIn(target, sv.targetRef.component);
    var ps := if sv.scalePolicy == [] then DefaultPolicies(groups) else sv.scalePolicy;
    var replicas, errors := SumCurrent(ps, groups);
    accepted := errors == 0;
    r := sv.(targetRef := sv.targetRef.(uid := UidOf(target)), scalePolicy := ps,
             labelSelector := LabelSelector(sv.targetRef, ps), replicas := Some(replicas));
  }

  /** The ignored read error does no harm: without a uid the validating webhook refuses the object. */
  lemma UnreadableTargetIsRefused(sv: ScaleView, target: TargetRead)
    requires target.Unreadable?
    ensures !ObjectAccepted(sv.(targetRef := sv.targetRef.(uid := UidOf(target))))
  {}

  method SumCurrent(ps: seq<ScalePolicy>, groups: seq<NodeGroup>) returns (replicas: int, errors: nat)
    ensures errors == 0 <==> Creatable(ps, groups)
    ensures errors == 0 ==> replicas == Wrap32(GroupTotal(ps, groups))
  {
    replicas, errors := 0, 0;
    for i := 0 to |ps|
      invariant errors == 0 <==> forall k :: 0 <= k < i ==> InRange(ps[k], groups)
      invariant errors == 0 ==> Wrap32(replicas + GroupTotal(ps[i..], groups)) == Wrap32(GroupTotal(ps, groups))
      invariant IsInt32(replicas)
    {
      var current := Read(groups, ps[i].group);
      if current.Some? {
        if ps[i].maxReplicas.Some? && current.value > ps[i].maxReplicas.value {
          errors := errors + 1;
        }
        WrapAbsorbs(replicas + current.value, GroupTotal(ps[i + 1..], groups));
        replicas := Wrap32(replicas + current.value);
      } else {
        errors := errors + 1;
      }
    }
    Wrap32Fits(replicas);
  }

  /** A limit below zero is below the current replicas of its group, so no new scale view has one. */
  lemma CreationRefusesNegativeLimits(ps: seq<ScalePolicy>, groups: seq<NodeGroup>)
    requires Creatable(ps, groups) && forall g :: g in groups ==> g.replicas >= 0
    ensures NonNegativeLimits(ps)
  {
    forall p | p in ps ensures Limit(p) >= 0 {
      var k :| 0 <= k < |ps| && ps[k] == p;
      assert InRange(ps[k], groups);
      ReadIsMember(groups, p.group);
    }
  }

  lemma {:induction false} ReadIsMember(groups: seq<NodeGroup>, name: string)
    ensures Read(groups, name).Some? ==> exists g :: g in groups && g.replicas == Read(groups, name).value
  {
    if groups != [] && groups[0].name != name {
      ReadIsMember(groups[1..], name);
      assert forall g :: g in groups[1..] ==> g in groups;
    } else if groups != [] {
      assert groups[0] in groups;
    }
  }

  /** The first lock of a new scale view redistributes replicas but neither adds nor drops any. */
  lemma FirstLockConserves(sv: ScaleView, groups: seq<NodeGroup>)
    requires SchemaValid(sv) && ObjectAccepted(sv)
    requires Creatable(sv.scalePolicy, groups) && forall g :: g in groups ==> g.replicas >= 0
    requires 0 <= GroupTotal(sv.scalePolicy, groups) <= MAX_INT32
    requires sv.replicas == Some(Wrap32(GroupTotal(sv.scalePolicy, groups)))
    ensures SplitOf(sv).Some? && LockedTotal(LockOf(sv).groupLocks) == GroupTotal(sv.scalePolicy, groups)
  {
    CreationRefusesNegativeLimits(sv.scalePolicy, groups);
    Wrap32Fits(GroupTotal(sv.scalePolicy, groups));
    AcceptedNeverPanics(sv);
    LockCarriesTotal(sv);
  }
}
