/** Scale views, and the lock records they keep in the RisingWave status. */
module ScaleViewLocks {
  import opened Lex
  import opened Integers
  import opened Allocation
  import opened SignedAllocation
  import Splitter

  datatype Component = Meta | Frontend | Compute | Compactor

  /** `uid` is `None` until the mutating webhook fills it in. */
  datatype TargetRef = TargetRef(name: string, component: Component, uid: Option<nat>)

  datatype ScaleView = ScaleView(
    name: string, uid: nat, generation: int,
    targetRef: TargetRef, labelSelector: string,
    replicas: Option<int>, scalePolicy: seq<ScalePolicy>)

  datatype GroupLock = GroupLock(name: string, replicas: int)

  datatype Lock = Lock(name: string, uid: nat, component: Component, generation: int, groupLocks: seq<GroupLock>)

  datatype LockError = UidMismatch | AlreadyGrabbed | Conflict(group: string, holder: string) | SplitPanic

  datatype Result<+T> = Ok(value: T) | Err(error: LockError)

  /** What the resource schema says: groups are distinct and numbers are of type int32. */
  ghost predicate SchemaValid(sv: ScaleView) {
    && DistinctGroups(sv.scalePolicy)
    && Splitter.Int32Limits(sv.scalePolicy)
    && IsInt32(TotalOf(sv))
    && |sv.scalePolicy| <= Splitter.MAX_POLICIES
  }

  ghost function TotalOf(sv: ScaleView): int {
    Deref(sv.replicas)
  }

  ghost function SplitOf(sv: ScaleView): Option<map<string, int>> {
    SplitSigned(sv.scalePolicy, TotalOf(sv))
  }

  /** Some of the classes, taken from the top, have room for the total. */
  ghost predicate InReach(sv: ScaleView) {
    Reaches(sv.scalePolicy, TotalOf(sv))
  }

  // ---- The records as values ----

  ghost function GroupLocksFor(ps: seq<ScalePolicy>, m: map<string, int>): (r: seq<GroupLock>)
    requires GroupSet(ps) <= m.Keys
    ensures |r| == |ps| && forall i :: 0 <= i < |ps| ==> r[i].name == ps[i].group
  {
    if ps == [] then [] else [GroupLock(ps[0].group, Assigned(ps, m, ps[0]))] + GroupLocksFor(ps[1..], m)
  }

  ghost function LockOf(sv: ScaleView): Lock
    requires SplitOf(sv).Some?
  {
    SplitSignedCoversGroups(sv.scalePolicy, TotalOf(sv));
    Lock(sv.name, sv.uid, sv.targetRef.component, sv.generation, GroupLocksFor(sv.scalePolicy, SplitOf(sv).value))
  }

  ghost function GroupsOf(l: Lock): set<string> {
    set g | g in l.groupLocks :: g.name
  }

  predicate Owns(l: Lock, sv: ScaleView) {
    l.name == sv.name && l.uid == sv.uid
  }

  ghost function IndexOf(locks: seq<Lock>, sv: ScaleView): (r: Option<nat>)
    ensures r.Some? ==> r.value < |locks| && Owns(locks[r.value], sv)
    ensures r.Some? ==> forall i :: 0 <= i < r.value ==> !Owns(locks[i], sv)
    ensures r.None? ==> forall l :: l in locks ==> !Owns(l, sv)
  {
    if locks == [] then None
    else if Owns(locks[0], sv) then Some(0)
    else
      var r := IndexOf(locks[1..], sv);
      if r.None? then None else Some(r.value + 1)
  }

  ghost function FirstShared(ps: seq<ScalePolicy>, groups: set<string>): (r: Option<string>)
    ensures r.None? <==> GroupSet(ps) * groups == {}
  {
    if ps == [] then None
    else
      assert ps[0] in ps && forall p :: p in ps <==> p == ps[0] || p in ps[1..];
      assert GroupSet(ps) == {ps[0].group} + GroupSet(ps[1..]);
      assert ps[0].group in groups ==> ps[0].group in GroupSet(ps) * groups;
      if ps[0].group in groups then Some(ps[0].group) else FirstShared(ps[1..], groups)
  }

  /** The first record, in list order, that stops `sv` from taking its lock. */
  ghost function Obstacle(locks: seq<Lock>, sv: ScaleView): Option<LockError> {
    if locks == [] then None
    else
      var l := locks[0];
      if l.name == sv.name && l.uid != sv.uid then Some(UidMismatch)
      else if l.name == sv.name then Some(AlreadyGrabbed)
      else if l.component == sv.targetRef.component && FirstShared(sv.scalePolicy, GroupsOf(l)).Some? then
        Some(Conflict(FirstShared(sv.scalePolicy, GroupsOf(l)).value, l.name))
      else Obstacle(locks[1..], sv)
  }

  ghost function Grab(locks: seq<Lock>, sv: ScaleView): Result<seq<Lock>> {
    if SplitOf(sv).None? then Err(SplitPanic)
    else if Obstacle(locks, sv).Some? then Err(Obstacle(locks, sv).value)
    else Ok(locks + [LockOf(sv)])
  }

  /** The boolean says whether the records changed. */
  ghost function GrabOrUpdate(locks: seq<Lock>, sv: ScaleView): Result<(bool, seq<Lock>)> {
    match IndexOf(locks, sv)
    case None =>
      (match Grab(locks, sv) case Err(e) => Err(e) case Ok(r) => Ok((true, r)))
    case Some(i) =>
      if locks[i].generation == sv.generation then Ok((false, locks))
      else if SplitOf(sv).None? then Err(SplitPanic)
      else Ok((true, locks[i := locks[i].(generation := sv.generation, groupLocks := LockOf(sv).groupLocks)]))
  }

  ghost function Release(locks: seq<Lock>, sv: ScaleView): seq<Lock> {
    match IndexOf(locks, sv) case None => locks case Some(i) => locks[..i] + locks[i + 1..]
  }

  // ---- The same in terms of names, uids and generations ----

  /** The first record with the name and the uid of the scale view. */
  ghost predicate FirstRecord(locks: seq<Lock>, sv: ScaleView, i: nat)
    requires i < |locks|
  {
    && locks[i].name == sv.name && locks[i].uid == sv.uid
    && forall k :: 0 <= k < i ==> locks[k].name != sv.name || locks[k].uid != sv.uid
  }

  lemma IndexIsFirst(locks: seq<Lock>, sv: ScaleView, i: nat)
    requires i < |locks| && FirstRecord(locks, sv, i)
    ensures IndexOf(locks, sv) == Some(i)
  {
    assert locks[i] in locks && Owns(locks[i], sv);
  }

  /** A record of the generation at hand is left alone, and nothing is reported as changed. */
  lemma CurrentRecordIsKept(locks: seq<Lock>, sv: ScaleView, i: nat)
    requires i < |locks| && FirstRecord(locks, sv, i) && locks[i].generation == sv.generation
    ensures GrabOrUpdate(locks, sv) == Ok((false, locks))
  {
    IndexIsFirst(locks, sv, i);
  }

  /** A record of another generation is brought to the one at hand, with the split of the total; nothing else of
      it changes, and no other record does. */
  lemma OutdatedRecordIsRewritten(locks: seq<Lock>, sv: ScaleView, i: nat)
    requires i < |locks| && FirstRecord(locks, sv, i) && locks[i].generation != sv.generation
    ensures GrabOrUpdate(locks, sv).Err? <==> SplitOf(sv).None?
    ensures match GrabOrUpdate(locks, sv)
      case Err(e) => e == SplitPanic
      case Ok((updated, now)) =>
        && updated && |now| == |locks| && (forall k :: 0 <= k < |locks| && k != i ==> now[k] == locks[k])
        && now[i].name == locks[i].name && now[i].uid == locks[i].uid && now[i].component == locks[i].component
        && now[i].generation == sv.generation && HoldsSplit(now[i], sv)
  {
    IndexIsFirst(locks, sv, i);
    if SplitOf(sv).Some? { LockHoldsSplit(sv); }
  }

  /** One group lock a policy, in the order of the policies, with the group's share of the total. */
  ghost predicate HoldsSplit(l: Lock, sv: ScaleView) {
    && SplitOf(sv).Some? && |l.groupLocks| == |sv.scalePolicy|
    && forall k :: 0 <= k < |sv.scalePolicy| ==>
         && l.groupLocks[k].name == sv.scalePolicy[k].group
         && l.groupLocks[k].name in SplitOf(sv).value
         && l.groupLocks[k].replicas == SplitOf(sv).value[l.groupLocks[k].name]
  }

  lemma LockHoldsSplit(sv: ScaleView)
    requires SplitOf(sv).Some?
    ensures HoldsSplit(LockOf(sv), sv)
  {
    SplitSignedCoversGroups(sv.scalePolicy, TotalOf(sv));
    GroupLocksNames(sv.scalePolicy, SplitOf(sv).value);
  }

  /** What taking a lock does: it fails without a split, or for the first record in its way, and else adds a record
      of its own at the end. */
  lemma GrabAddsRecord(locks: seq<Lock>, sv: ScaleView)
    ensures Grab(locks, sv) == Err(SplitPanic) <==> SplitOf(sv).None?
    ensures match Grab(locks, sv)
      case Err(e) => e == SplitPanic || Obstacle(locks, sv) == Some(e)
      case Ok(now) =>
        && Obstacle(locks, sv).None? && |now| == |locks| + 1 && now[..|locks|] == locks
        && now[|locks|].name == sv.name && now[|locks|].uid == sv.uid && now[|locks|].generation == sv.generation
        && now[|locks|].component == sv.targetRef.component && HoldsSplit(now[|locks|], sv)
  {
    ObstacleIsNoPanic(locks, sv);
    if SplitOf(sv).Some? { LockHoldsSplit(sv); }
  }

  lemma {:induction false} ObstacleIsNoPanic(locks: seq<Lock>, sv: ScaleView)
    ensures Obstacle(locks, sv) != Some(SplitPanic)
  {
    if locks != [] { ObstacleIsNoPanic(locks[1..], sv); }
  }

  /** The record has another name, and holds no group of the scale view's component that the scale view wants. */
  ghost predicate NotInTheWay(l: Lock, sv: ScaleView) {
    && l.name != sv.name
    && forall g, p :: g in l.groupLocks && p in sv.scalePolicy && g.name == p.group
         ==> l.component != sv.targetRef.component
  }

  /** The group of policy `k` is the first in the order of the policies that the record holds. */
  ghost predicate FirstHeld(l: Lock, ps: seq<ScalePolicy>, k: nat) {
    && k < |ps| && (exists g :: g in l.groupLocks && g.name == ps[k].group)
    && forall i :: 0 <= i < k ==> forall g :: g in l.groupLocks ==> g.name != ps[i].group
  }

  /** Which error stops the scale view: that of the first record in its way. */
  lemma {:induction false} FirstObstacleDecides(locks: seq<Lock>, sv: ScaleView, i: nat)
    requires i < |locks| && forall k :: 0 <= k < i ==> NotInTheWay(locks[k], sv)
    ensures locks[i].name == sv.name ==>
              Obstacle(locks, sv) == Some(if locks[i].uid == sv.uid then AlreadyGrabbed else UidMismatch)
    ensures forall k: nat :: locks[i].name != sv.name && locks[i].component == sv.targetRef.component
              && FirstHeld(locks[i], sv.scalePolicy, k)
              ==> Obstacle(locks, sv) == Some(Conflict(sv.scalePolicy[k].group, locks[i].name))
  {
    if i == 0 {
      forall k: nat | FirstHeld(locks[0], sv.scalePolicy, k)
        ensures FirstShared(sv.scalePolicy, GroupsOf(locks[0])) == Some(sv.scalePolicy[k].group)
      {
        FirstSharedIs(sv.scalePolicy, locks[0], k);
      }
    } else {
      assert NotInTheWay(locks[0], sv);
      assert GroupSet(sv.scalePolicy) * GroupsOf(locks[0]) == {} || locks[0].component != sv.targetRef.component;
      FirstObstacleDecides(locks[1..], sv, i - 1);
    }
  }

  lemma {:induction false} FirstSharedIs(ps: seq<ScalePolicy>, l: Lock, k: nat)
    requires FirstHeld(l, ps, k)
    ensures FirstShared(ps, GroupsOf(l)) == Some(ps[k].group)
  {
    if k > 0 {
      assert ps[0].group !in GroupsOf(l);
      assert FirstHeld(l, ps[1..], k - 1);
      FirstSharedIs(ps[1..], l, k - 1);
    }
  }

  /** What is reported as changed is what has changed. */
  lemma GrabOrUpdateTellsTruth(locks: seq<Lock>, sv: ScaleView)
    ensures match GrabOrUpdate(locks, sv) case Err(_) => true case Ok((updated, now)) => updated <==> now != locks
  {
    var i := IndexOf(locks, sv);
    if i.Some? && GrabOrUpdate(locks, sv).Ok? && locks[i.value].generation != sv.generation {
      assert GrabOrUpdate(locks, sv).value.1[i.value].generation != locks[i.value].generation;
    }
  }

  /** Once a scale view has its lock, asking for it again changes nothing and reports nothing. */
  lemma GrabIsIdempotent(locks: seq<Lock>, sv: ScaleView)
    requires GrabOrUpdate(locks, sv).Ok?
    ensures GrabOrUpdate(GrabOrUpdate(locks, sv).value.1, sv) == Ok((false, GrabOrUpdate(locks, sv).value.1))
  {
    var now := GrabOrUpdate(locks, sv).value.1;
    match IndexOf(locks, sv)
    case None =>
      forall k | 0 <= k < |locks| ensures now[k] == locks[k] && !Owns(locks[k], sv) { assert locks[k] in locks; }
      CurrentRecordIsKept(now, sv, |locks|);
    case Some(i) =>
      CurrentRecordIsKept(now, sv, i);
  }

  // ---- The manager, updating the records in memory ----

  lemma IndexFromHere(locks: seq<Lock>, sv: ScaleView, i: nat)
    requires i < |locks|
    ensures IndexOf(locks[i..], sv) ==
            if Owns(locks[i], sv) then Some(0)
            else match IndexOf(locks[i + 1..], sv) case None => None case Some(k) => Some(k + 1)
  {
    assert locks[i..][1..] == locks[i + 1..];
  }

  class ScaleViewLockManager {
    /** `.status.scaleViews` of the RisingWave object. */
    var scaleViews: seq<Lock>

    constructor (scaleViews: seq<Lock>)
      ensures this.scaleViews == scaleViews
    {
      this.scaleViews := scaleViews;
    }

    method GetScaleViewLockIndex(sv: ScaleView) returns (r: Option<nat>)
      ensures r == IndexOf(scaleViews, sv)
      ensures r.Some? ==> r.value < |scaleViews| && FirstRecord(scaleViews, sv, r.value)
      ensures r.None? ==> forall l :: l in scaleViews ==> l.name != sv.name || l.uid != sv.uid
    {
      for i := 0 to |scaleViews|
        invariant IndexOf(scaleViews, sv) ==
                  match IndexOf(scaleViews[i..], sv) case None => None case Some(k) => Some(k + i)
      {
        IndexFromHere(scaleViews, sv, i);
        if Owns(scaleViews[i], sv) {
          return Some(i);
        }
      }
      r := None;
    }

    method IsScaleViewLocked(sv: ScaleView) returns (locked: bool)
      ensures locked <==> exists l :: l in scaleViews && l.name == sv.name && l.uid == sv.uid
    {
      var i := GetScaleViewLockIndex(sv);
      locked := i.Some?;
    }

    /** The error, if any, and the records afterwards, are those of `Grab`. */
    method GrabScaleViewLockFor(sv: ScaleView) returns (err: Option<LockError>)
      requires SchemaValid(sv)
      modifies this
      ensures match Grab(old(scaleViews), sv)
        case Err(e) => err == Some(e) && scaleViews == old(scaleViews)
        case Ok(locks) => err == None && scaleViews == locks
    {
      var groupReplicas := Splitter.SplitReplicas(sv.scalePolicy, sv.replicas);
      SplitSignedCoversGroups(sv.scalePolicy, TotalOf(sv));
      if groupReplicas.None? {
        return Some(SplitPanic);
      }
      for i := 0 to |scaleViews|
        invariant scaleViews == old(scaleViews)
        invariant Obstacle(scaleViews, sv) == Obstacle(scaleViews[i..], sv)
      {
        var s := scaleViews[i];
        if s.name == sv.name && s.uid != sv.uid {
          return Some(UidMismatch);
        }
        if s.name == sv.name && s.uid == sv.uid {
          return Some(AlreadyGrabbed);
        }
        if s.component == sv.targetRef.component {
          var shared := FindShared(sv.scalePolicy, s);
          if shared.Some? {
            return Some(Conflict(shared.value, s.name));
          }
        }
      }
      var groupLocks := BuildGroupLocks(sv.scalePolicy, groupReplicas.value);
      scaleViews := scaleViews + [Lock(sv.name, sv.uid, sv.targetRef.component, sv.generation, groupLocks)];
      err := None;
    }

    /** `updated` and the records afterwards are those of `GrabOrUpdate`. */
    method GrabOrUpdateScaleViewLockFor(sv: ScaleView) returns (updated: bool, err: Option<LockError>)
      requires SchemaValid(sv)
      modifies this
      ensures match GrabOrUpdate(old(scaleViews), sv)
        case Err(e) => !updated && err == Some(e) && scaleViews == old(scaleViews)
        case Ok(r) => updated == r.0 && err == None && scaleViews == r.1
      ensures updated <==> scaleViews != old(scaleViews)
      ensures err.Some? ==> !updated
      ensures forall i :: (0 <= i < |old(scaleViews)| && FirstRecord(old(scaleViews), sv, i)
                           && old(scaleViews)[i].generation == sv.generation) ==> !updated && err == None
    {
      GrabOrUpdateTellsTruth(scaleViews, sv);
      forall i | 0 <= i < |scaleViews| && FirstRecord(scaleViews, sv, i) && scaleViews[i].generation == sv.generation
        ensures GrabOrUpdate(scaleViews, sv) == Ok((false, scaleViews))
      {
        CurrentRecordIsKept(scaleViews, sv, i);
      }
      var i := GetScaleViewLockIndex(sv);
      if i.None? {
        err := GrabScaleViewLockFor(sv);
        return err.None?, err;
      }
      if scaleViews[i.value].generation == sv.generation {
        return false, None;
      }
      var groupReplicas := Splitter.SplitReplicas(sv.scalePolicy, sv.replicas);
      SplitSignedCoversGroups(sv.scalePolicy, TotalOf(sv));
      if groupReplicas.None? {
        return false, Some(SplitPanic);
      }
      var groupLocks := BuildGroupLocks(sv.scalePolicy, groupReplicas.value);
      scaleViews := scaleViews[i.value := scaleViews[i.value].(generation := sv.generation, groupLocks := groupLocks)];
      return true, None;
    }

    method ReleaseLockFor(sv: ScaleView) returns (released: bool)
      modifies this
      ensures scaleViews == Release(old(scaleViews), sv)
      ensures released <==> exists l :: l in old(scaleViews) && l.name == sv.name && l.uid == sv.uid
      ensures forall i :: 0 <= i < |old(scaleViews)| && FirstRecord(old(scaleViews), sv, i) ==>
                scaleViews == old(scaleViews)[..i] + old(scaleViews)[i + 1..]
      ensures !released ==> scaleViews == old(scaleViews)
    {
      var i := GetScaleViewLockIndex(sv);
      forall k | 0 <= k < |scaleViews| && FirstRecord(scaleViews, sv, k) ensures i == Some(k) {
        IndexIsFirst(scaleViews, sv, k);
      }
      if i.Some? {
        scaleViews := scaleViews[..i.value] + scaleViews[i.value + 1..];
      }
      released := i.Some?;
    }
  }

  method FindShared(ps: seq<ScalePolicy>, l: Lock) returns (r: Option<string>)
    ensures r == FirstShared(ps, GroupsOf(l))
  {
    for i := 0 to |ps|
      invariant FirstShared(ps, GroupsOf(l)) == FirstShared(ps[i..], GroupsOf(l))
    {
      var locked := LocksGroup(l, ps[i].group);
      if locked {
        return Some(ps[i].group);
      }
    }
    r := None;
  }

  method LocksGroup(l: Lock, group: string) returns (locked: bool)
    ensures locked <==> group in GroupsOf(l)
  {
    for i := 0 to |l.groupLocks|
      invariant forall k :: 0 <= k < i ==> l.groupLocks[k].name != group
    {
      if l.groupLocks[i].name == group {
        assert l.groupLocks[i] in l.groupLocks;
        return true;
      }
    }
    locked := false;
  }

  method BuildGroupLocks(ps: seq<ScalePolicy>, m: map<string, int>) returns (r: seq<GroupLock>)
    requires GroupSet(ps) <= m.Keys
    ensures r == GroupLocksFor(ps, m)
  {
    r := [];
    for i := 0 to |ps|
      invariant r + GroupLocksFor(ps[i..], m) == GroupLocksFor(ps, m)
    {
      NextGroupLock(ps, i, m);
      r := r + [GroupLock(ps[i].group, m[ps[i].group])];
    }
  }

  lemma NextGroupLock(ps: seq<ScalePolicy>, i: nat, m: map<string, int>)
    requires i < |ps| && GroupSet(ps) <= m.Keys
    ensures GroupSet(ps[i..]) <= m.Keys && GroupSet(ps[i + 1..]) <= m.Keys && ps[i].group in m
    ensures GroupLocksFor(ps[i..], m) == [GroupLock(ps[i].group, m[ps[i].group])] + GroupLocksFor(ps[i + 1..], m)
  {
    assert ps[i] in ps && ps[i].group in GroupSet(ps);
    assert ps[i..][1..] == ps[i + 1..];
    assert forall p :: p in ps[i + 1..] ==> p in ps[i..];
    assert forall p :: p in ps[i..] ==> p in ps;
  }

  // ---- What the records guarantee ----

  /** No two records share a name, and no (component, group) pair is held twice. */
  ghost predicate Exclusive(locks: seq<Lock>) {
    && (forall i, j :: 0 <= i < j < |locks| ==> locks[i].name != locks[j].name)
    && (forall i, j :: 0 <= i < j < |locks| && locks[i].component == locks[j].component
          ==> GroupsOf(locks[i]) * GroupsOf(locks[j]) == {})
  }

  lemma {:induction false} GroupLocksNames(ps: seq<ScalePolicy>, m: map<string, int>)
    requires GroupSet(ps) <= m.Keys
    ensures (set g | g in GroupLocksFor(ps, m) :: g.name) == GroupSet(ps)
    ensures forall i :: 0 <= i < |ps| ==> ps[i].group in m && GroupLocksFor(ps, m)[i].replicas == m[ps[i].group]
  {
    if ps != [] {
      var rest := ps[1..];
      assert ps[0] in ps && forall p :: p in ps <==> p == ps[0] || p in rest;
      assert GroupSet(ps) == {ps[0].group} + GroupSet(rest);
      GroupLocksNames(rest, m);
      var r := GroupLocksFor(ps, m);
      assert forall g :: g in r <==> g == r[0] || g in r[1..];
      assert r[1..] == GroupLocksFor(rest, m);
    }
  }

  lemma LockGroups(sv: ScaleView)
    requires SplitOf(sv).Some?
    ensures GroupsOf(LockOf(sv)) == GroupSet(sv.scalePolicy)
  {
    SplitSignedCoversGroups(sv.scalePolicy, TotalOf(sv));
    GroupLocksNames(sv.scalePolicy, SplitOf(sv).value);
  }

  ghost function LockedTotal(locks: seq<GroupLock>): int {
    if locks == [] then 0 else locks[0].replicas + LockedTotal(locks[1..])
  }

  lemma {:induction false} GroupLocksTotal(ps: seq<ScalePolicy>, m: map<string, int>)
    requires GroupSet(ps) <= m.Keys
    ensures LockedTotal(GroupLocksFor(ps, m)) == Total(ps, m)
  {
    if ps != [] {
      assert forall p :: p in ps[1..] ==> p in ps;
      GroupLocksTotal(ps[1..], m);
      assert GroupLocksFor(ps, m)[1..] == GroupLocksFor(ps[1..], m);
    }
  }

  /** The locked values of a record add up to the total its scale view asks for, exactly if that is within
      reach of the limits, and as int32 numbers in any case. */
  lemma LockCarriesTotal(sv: ScaleView)
    requires SchemaValid(sv) && SplitOf(sv).Some?
    ensures LockedTotal(LockOf(sv).groupLocks) == TotalOf(sv) <==> InReach(sv)
    ensures Wrap32(LockedTotal(LockOf(sv).groupLocks)) == TotalOf(sv)
  {
    SplitSignedAddsUp(sv.scalePolicy, TotalOf(sv));
    GroupLocksTotal(sv.scalePolicy, SplitOf(sv).value);
  }

  /** The exact condition for taking a lock: no record of that name, none holding one of the groups. */
  lemma {:induction false} GrabSucceedsExactly(locks: seq<Lock>, sv: ScaleView)
    ensures Obstacle(locks, sv).None? <==> forall l :: l in locks ==>
      l.name != sv.name && (l.component == sv.targetRef.component ==> GroupsOf(l) * GroupSet(sv.scalePolicy) == {})
  {
    if locks != [] {
      assert forall l :: l in locks <==> l == locks[0] || l in locks[1..];
      assert GroupsOf(locks[0]) * GroupSet(sv.scalePolicy) == GroupSet(sv.scalePolicy) * GroupsOf(locks[0]);
      GrabSucceedsExactly(locks[1..], sv);
    }
  }

  lemma GrabKeepsExclusive(locks: seq<Lock>, sv: ScaleView)
    requires Exclusive(locks) && Grab(locks, sv).Ok?
    ensures Exclusive(Grab(locks, sv).value)
  {
    GrabSucceedsExactly(locks, sv);
    LockGroups(sv);
    var r := Grab(locks, sv).value;
    forall i | 0 <= i < |locks|
      ensures r[i].name != r[|locks|].name
      ensures r[i].component == r[|locks|].component ==> GroupsOf(r[i]) * GroupsOf(r[|locks|]) == {}
    {
      assert locks[i] in locks;
    }
  }

  /** The update branch checks nothing: it keeps exclusion because the groups cannot have changed. */
  lemma ReplaceKeepsExclusive(locks: seq<Lock>, i: nat, l: Lock)
    requires Exclusive(locks) && i < |locks|
    requires l.name == locks[i].name && l.component == locks[i].component && GroupsOf(l) == GroupsOf(locks[i])
    ensures Exclusive(locks[i := l])
  {}

  ghost predicate Subsequence(xs: seq<Lock>, ys: seq<Lock>) {
    if xs == [] then true
    else if ys == [] then false
    else if xs[0] == ys[0] && Subsequence(xs[1..], ys[1..]) then true
    else Subsequence(xs, ys[1..])
  }

  lemma {:induction false} SubsequenceMembers(xs: seq<Lock>, ys: seq<Lock>, l: Lock)
    requires Subsequence(xs, ys) && l in xs
    ensures l in ys
  {
    if xs[0] == ys[0] && Subsequence(xs[1..], ys[1..]) {
      if l != xs[0] { SubsequenceMembers(xs[1..], ys[1..], l); }
    } else {
      SubsequenceMembers(xs, ys[1..], l);
    }
  }

  /** Dropping records keeps exclusion. */
  lemma {:induction false} SubsequenceKeepsExclusive(xs: seq<Lock>, ys: seq<Lock>)
    requires Subsequence(xs, ys) && Exclusive(ys)
    ensures Exclusive(xs)
  {
    if xs != [] {
      if xs[0] == ys[0] && Subsequence(xs[1..], ys[1..]) {
        SubsequenceKeepsExclusive(xs[1..], ys[1..]);
        forall j | 0 < j < |xs|
          ensures xs[0].name != xs[j].name
          ensures xs[0].component == xs[j].component ==> GroupsOf(xs[0]) * GroupsOf(xs[j]) == {}
        {
          SubsequenceMembers(xs[1..], ys[1..], xs[1..][j - 1]);
          var k :| 0 <= k < |ys[1..]| && ys[1..][k] == xs[j];
          assert ys[k + 1] == xs[j];
        }
      } else {
        SubsequenceKeepsExclusive(xs, ys[1..]);
      }
    }
  }

  lemma {:induction false} SubsequenceRefl(xs: seq<Lock>)
    ensures Subsequence(xs, xs)
  {
    if xs != [] { SubsequenceRefl(xs[1..]); }
  }
}
