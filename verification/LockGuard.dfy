/** The guard that the RisingWave validating webhook puts on every spec write: locked groups move
    to their locked values together or not at all. */
module LockGuard {
  import opened Lex
  import opened ScaleViewLocks

  datatype NodeGroup = NodeGroup(name: string, replicas: int)

  datatype Components = Components(meta: seq<NodeGroup>, frontend: seq<NodeGroup>, compute: seq<NodeGroup>,
                                   compactor: seq<NodeGroup>)
  {
    function Get(c: Component): seq<NodeGroup> {
      match c
      case Meta => meta
      case Frontend => frontend
      case Compute => compute
      case Compactor => compactor
    }

    function With(c: Component, groups: seq<NodeGroup>): (r: Components)
      ensures forall d :: r.Get(d) == if d == c then groups else Get(d)
    {
      match c
      case Meta => this.(meta := groups)
      case Frontend => this.(frontend := groups)
      case Compute => this.(compute := groups)
      case Compactor => this.(compactor := groups)
    }
  }

  /** Which list belongs to which component, read and written. */
  lemma ListOfComponent(c: Components, groups: seq<NodeGroup>)
    ensures c.Get(Meta) == c.meta && c.With(Meta, groups) == c.(meta := groups)
    ensures c.Get(Frontend) == c.frontend && c.With(Frontend, groups) == c.(frontend := groups)
    ensures c.Get(Compute) == c.compute && c.With(Compute, groups) == c.(compute := groups)
    ensures c.Get(Compactor) == c.compactor && c.With(Compactor, groups) == c.(compactor := groups)
  {}

  /** The replicas of the first node group of that name. */
  function Read(groups: seq<NodeGroup>, name: string): Option<int> {
    if groups == [] then None
    else if groups[0].name == name then Some(groups[0].replicas)
    else Read(groups[1..], name)
  }

  function Write(groups: seq<NodeGroup>, name: string, replicas: int): (r: seq<NodeGroup>)
    ensures |r| == |groups|
  {
    if groups == [] then []
    else if groups[0].name == name then [groups[0].(replicas := replicas)] + groups[1..]
    else [groups[0]] + Write(groups[1..], name, replicas)
  }

  lemma {:induction false} ReadAfterWrite(groups: seq<NodeGroup>, name: string, replicas: int, other: string)
    ensures Read(Write(groups, name, replicas), other)
         == if other == name && Read(groups, name).Some? then Some(replicas) else Read(groups, other)
  {
    if groups != [] { ReadAfterWrite(groups[1..], name, replicas, other); }
  }

  lemma {:induction false} WriteSame(groups: seq<NodeGroup>, name: string, replicas: int)
    requires Read(groups, name).None? || Read(groups, name).value == replicas
    ensures Write(groups, name, replicas) == groups
  {
    if groups != [] && groups[0].name != name { WriteSame(groups[1..], name, replicas); }
  }

  /** Reads and writes the node groups of one component inside a RisingWave object. */
  class RisingWaveScaleViewHelper {
    var components: Components
    const component: Component

    constructor (components: Components, component: Component)
      ensures this.components == components && this.component == component
    {
      this.components := components;
      this.component := component;
    }

    method GetGroupIndex(group: string) returns (r: Option<nat>)
      ensures var gs := components.Get(component);
        match r
        case None => Read(gs, group) == None
        case Some(i) => i < |gs| && gs[i].name == group && Read(gs, group) == Some(gs[i].replicas)
                        && forall k :: 0 <= k < i ==> gs[k].name != group
    {
      var gs := components.Get(component);
      for i := 0 to |gs|
        invariant forall k :: 0 <= k < i ==> gs[k].name != group
        invariant Read(gs, group) == Read(gs[i..], group)
      {
        if gs[i].name == group {
          return Some(i);
        }
      }
      r := None;
    }

    method ReadReplicas(group: string) returns (r: Option<int>)
      ensures r == Read(components.Get(component), group)
    {
      var i := GetGroupIndex(group);
      r := if i.None? then None else Some(components.Get(component)[i.value].replicas);
    }

    method WriteReplicas(group: string, replicas: int) returns (changed: bool)
      modifies this`components
      ensures components == old(components).With(component, Write(old(components).Get(component), group, replicas))
      ensures changed <==> components != old(components)
    {
      var gs := components.Get(component);
      var i := GetGroupIndex(group);
      if i.None? || gs[i.value].replicas == replicas {
        WriteSame(gs, group, replicas);
        return false;
      }
      WriteAt(gs, i.value, group, replicas);
      components := components.With(component, gs[i.value := gs[i.value].(replicas := replicas)]);
      assert components.Get(component)[i.value] != old(components).Get(component)[i.value];
      return true;
    }
  }

  lemma {:induction false} WriteAt(groups: seq<NodeGroup>, i: nat, name: string, replicas: int)
    requires i < |groups| && groups[i].name == name && forall k :: 0 <= k < i ==> groups[k].name != name
    ensures Write(groups, name, replicas) == groups[i := groups[i].(replicas := replicas)]
  {
    if i > 0 { WriteAt(groups[1..], i - 1, name, replicas); }
  }

  // ---- What the guard accepts ----

  ghost function OldValue(old_: seq<NodeGroup>, l: GroupLock): int {
    var r := Read(old_, l.name); if r.Some? then r.value else 0
  }

  ghost predicate AtLock(now: seq<NodeGroup>, l: GroupLock) {
    Read(now, l.name) == Some(l.replicas)
  }

  /** A group that does not exist in the old object counts as having zero replicas there. */
  ghost predicate Unchanged(old_: seq<NodeGroup>, now: seq<NodeGroup>, l: GroupLock) {
    Read(now, l.name) == Some(OldValue(old_, l))
  }

  /** All locked values, or nothing moved and the locks, in list order, are a non-empty run of groups
      away from their lock and then only groups at their lock. */
  ghost predicate Accepts(old_: seq<NodeGroup>, now: seq<NodeGroup>, locks: seq<GroupLock>) {
    || (forall i :: 0 <= i < |locks| ==> AtLock(now, locks[i]))
    || exists k :: PendingRun(old_, now, locks, k)
  }

  ghost predicate PendingRun(old_: seq<NodeGroup>, now: seq<NodeGroup>, locks: seq<GroupLock>, k: int) {
    && 0 < k <= |locks|
    && (forall i :: 0 <= i < |locks| ==> Unchanged(old_, now, locks[i]))
    && (forall i :: 0 <= i < k ==> !AtLock(now, locks[i]))
    && (forall i :: k <= i < |locks| ==> AtLock(now, locks[i]))
  }

  ghost predicate GuardAccepts(old_: Components, now: Components, locks: seq<Lock>) {
    forall i :: 0 <= i < |locks| ==>
      Accepts(old_.Get(locks[i].component), now.Get(locks[i].component), locks[i].groupLocks)
  }

  /** The counters of the webhook's loop after an accepted prefix: how many values were unchanged and
      away from their lock, and how many were at it. */
  ghost predicate Counted(old_: seq<NodeGroup>, now: seq<NodeGroup>, locks: seq<GroupLock>, unchanged_: int,
                          updated: int) {
    && unchanged_ >= 0 && updated >= 0 && unchanged_ + updated == |locks|
    && (unchanged_ > 0 ==> PendingRun(old_, now, locks, unchanged_))
    && (unchanged_ == 0 ==> forall i :: 0 <= i < |locks| ==> AtLock(now, locks[i]))
  }

  lemma AcceptsPrefix(old_: seq<NodeGroup>, now: seq<NodeGroup>, locks: seq<GroupLock>, l: GroupLock)
    requires Accepts(old_, now, locks + [l])
    ensures Accepts(old_, now, locks)
  {
    var all := locks + [l];
    assert forall i :: 0 <= i < |locks| ==> all[i] == locks[i];
    if !forall i :: 0 <= i < |all| ==> AtLock(now, all[i]) {
      var k :| PendingRun(old_, now, all, k);
      if locks != [] { assert PendingRun(old_, now, locks, if k <= |locks| then k else |locks|); }
    }
  }

  lemma CountStep(old_: seq<NodeGroup>, now: seq<NodeGroup>, locks: seq<GroupLock>, l: GroupLock,
                  unchanged_: int, updated: int)
    requires Counted(old_, now, locks, unchanged_, updated)
    ensures AtLock(now, l) && (unchanged_ > 0 ==> Unchanged(old_, now, l))
      ==> Counted(old_, now, locks + [l], unchanged_, updated + 1)
    ensures !AtLock(now, l) && Unchanged(old_, now, l) && updated == 0
      ==> Counted(old_, now, locks + [l], unchanged_ + 1, updated)
    ensures Accepts(old_, now, locks + [l]) <==>
      || (AtLock(now, l) && (unchanged_ > 0 ==> Unchanged(old_, now, l)))
      || (!AtLock(now, l) && Unchanged(old_, now, l) && updated == 0)
  {
    var all := locks + [l];
    assert forall i :: 0 <= i < |locks| ==> all[i] == locks[i];
    assert all[|locks|] == l;
    if AtLock(now, l) && unchanged_ > 0 && Unchanged(old_, now, l) {
      assert PendingRun(old_, now, all, unchanged_);
    }
    if !AtLock(now, l) && Unchanged(old_, now, l) && updated == 0 {
      assert PendingRun(old_, now, all, |all|);
    }
    assert updated > 0 ==> AtLock(now, all[unchanged_]);
    assert unchanged_ > 0 ==> !AtLock(now, all[0]);
    forall k | PendingRun(old_, now, all, k)
      ensures Unchanged(old_, now, l) && (!AtLock(now, l) ==> updated == 0)
    {
      if !AtLock(now, l) {
        assert k == |all|;
        assert forall i :: 0 <= i < |locks| ==> !AtLock(now, all[i]);
      }
    }
  }

  datatype Counters = Counters(unchangedCnt: nat, updateCnt: nat)

  /** One turn of the inner loop: the new counters and whether the group is reported. */
  method CheckGroup(old_: seq<NodeGroup>, now: seq<NodeGroup>, l: GroupLock, c: Counters)
    returns (d: Counters, rejected: bool)
    ensures Read(now, l.name).None? ==> rejected
    ensures !rejected <==>
      || (AtLock(now, l) && (c.unchangedCnt > 0 ==> Unchanged(old_, now, l)))
      || (!AtLock(now, l) && Unchanged(old_, now, l) && c.updateCnt == 0)
    ensures d == if Read(now, l.name).None? then c
                 else if !AtLock(now, l) && Unchanged(old_, now, l) then c.(unchangedCnt := c.unchangedCnt + 1)
                 else c.(updateCnt := c.updateCnt + 1)
  {
    var was := Read(old_, l.name);
    var before := if was.Some? then was.value else 0;
    var is_ := Read(now, l.name);
    if is_.None? {
      return c, true;
    }
    var cur := is_.value;
    if cur == l.replicas {
      d := c.(updateCnt := c.updateCnt + 1);
    } else if cur == before {
      d := c.(unchangedCnt := c.unchangedCnt + 1);
    } else {
      d := c.(updateCnt := c.updateCnt + 1);
    }
    rejected := (d.unchangedCnt > 0 && cur != before) || (d.updateCnt > 0 && cur != l.replicas);
  }

  /** The check of one record: accepted exactly as `Accepts` says. */
  method CheckRecord(old_: seq<NodeGroup>, now: seq<NodeGroup>, locks: seq<GroupLock>) returns (errors: nat)
    ensures errors == 0 <==> Accepts(old_, now, locks)
  {
    errors := 0;
    var c := Counters(0, 0);
    for i := 0 to |locks|
      invariant errors == 0 ==> Counted(old_, now, locks[..i], c.unchangedCnt, c.updateCnt)
      invariant errors == 0 <==> Accepts(old_, now, locks[..i])
    {
      assert locks[..i + 1] == locks[..i] + [locks[i]];
      if errors == 0 {
        CountStep(old_, now, locks[..i], locks[i], c.unchangedCnt, c.updateCnt);
      } else if Accepts(old_, now, locks[..i + 1]) {
        AcceptsPrefix(old_, now, locks[..i], locks[i]);
      }
      var rejected;
      c, rejected := CheckGroup(old_, now, locks[i], c);
      if rejected { errors := errors + 1; }
    }
    assert locks[..|locks|] == locks;
  }

  /** The lock part of `validateUpdate`: no error is reported exactly when the guard accepts. */
  method ValidateUpdate(old_: Components, now: Components, scaleViews: seq<Lock>) returns (errors: nat)
    ensures errors == 0 <==> GuardAccepts(old_, now, scaleViews)
  {
    errors := 0;
    for i := 0 to |scaleViews|
      invariant errors == 0 <==> GuardAccepts(old_, now, scaleViews[..i])
    {
      var s := scaleViews[i];
      assert scaleViews[..i + 1] == scaleViews[..i] + [s];
      assert scaleViews[..i + 1][i] == s;
      assert forall k :: 0 <= k < i ==> scaleViews[..i + 1][k] == scaleViews[..i][k];
      var e := CheckRecord(old_.Get(s.component), now.Get(s.component), s.groupLocks);
      errors := errors + e;
    }
    assert scaleViews[..|scaleViews|] == scaleViews;
  }

  // ---- Consequences ----

  /** An accepted write never deletes a locked group and moves the groups of a scale view all or none. */
  lemma AcceptedIsAllOrNothing(old_: seq<NodeGroup>, now: seq<NodeGroup>, locks: seq<GroupLock>)
    requires Accepts(old_, now, locks)
    ensures forall i :: 0 <= i < |locks| ==> Read(now, locks[i].name).Some?
    ensures (forall i :: 0 <= i < |locks| ==> AtLock(now, locks[i]))
         || (forall i :: 0 <= i < |locks| ==> Unchanged(old_, now, locks[i]))
  {}

  /** Once every group is at its lock, an accepted write leaves every group at its lock. */
  lemma HeldStaysHeld(old_: seq<NodeGroup>, now: seq<NodeGroup>, locks: seq<GroupLock>)
    requires Accepts(old_, now, locks)
    requires forall i :: 0 <= i < |locks| ==> AtLock(old_, locks[i])
    ensures forall i :: 0 <= i < |locks| ==> AtLock(now, locks[i])
  {
    if locks != [] {
      assert AtLock(old_, locks[0]) && (Unchanged(old_, now, locks[0]) ==> AtLock(now, locks[0]));
    }
  }

  ghost predicate NoneHeldBeforePending(groups: seq<NodeGroup>, locks: seq<GroupLock>) {
    forall i, j :: 0 <= i < j < |locks| && AtLock(groups, locks[i]) ==> AtLock(groups, locks[j])
  }

  ghost predicate AllExist(groups: seq<NodeGroup>, locks: seq<GroupLock>) {
    forall i :: 0 <= i < |locks| ==> Read(groups, locks[i].name).Some?
  }

  /** The guard looks at the locked groups only. */
  lemma AcceptsReadsLockedOnly(old_: seq<NodeGroup>, now: seq<NodeGroup>, other: seq<NodeGroup>, locks: seq<GroupLock>)
    requires forall i :: 0 <= i < |locks| ==> Read(now, locks[i].name) == Read(other, locks[i].name)
    requires Accepts(old_, now, locks)
    ensures Accepts(old_, other, locks)
  {
    forall i | 0 <= i < |locks|
      ensures AtLock(now, locks[i]) <==> AtLock(other, locks[i])
      ensures Unchanged(old_, now, locks[i]) <==> Unchanged(old_, other, locks[i])
    {}
    if k :| PendingRun(old_, now, locks, k) {
      assert PendingRun(old_, other, locks, k);
    }
  }

  lemma SameListAcceptedExactly(groups: seq<NodeGroup>, locks: seq<GroupLock>)
    ensures Accepts(groups, groups, locks) <==> AllExist(groups, locks) && NoneHeldBeforePending(groups, locks)
  {
    if Accepts(groups, groups, locks) { AcceptedIsAllOrNothing(groups, groups, locks); }
    if AllExist(groups, locks) && NoneHeldBeforePending(groups, locks) {
      var k := 0;
      while k < |locks| && !AtLock(groups, locks[k])
        invariant 0 <= k <= |locks| && forall i :: 0 <= i < k ==> !AtLock(groups, locks[i])
      {
        k := k + 1;
      }
      if k > 0 {
        assert PendingRun(groups, groups, locks, k);
      }
    }
  }

  /** What a locked group read before the write; one that was not there counts as having none. */
  ghost predicate AsBefore(old_: seq<NodeGroup>, now: seq<NodeGroup>, name: string) {
    Read(now, name) == if Read(old_, name).None? then Some(0) else Read(old_, name)
  }

  /** For every write, however many groups it adds, moves or drops: a record is accepted if and only if all its groups
      are at their values, or all read as before and none at its value precedes one that is not. */
  lemma AcceptedExactly(old_: seq<NodeGroup>, now: seq<NodeGroup>, locks: seq<GroupLock>)
    ensures Accepts(old_, now, locks) <==>
      || (forall i :: 0 <= i < |locks| ==> Read(now, locks[i].name) == Some(locks[i].replicas))
      || ((forall i :: 0 <= i < |locks| ==> AsBefore(old_, now, locks[i].name))
          && forall i, j :: 0 <= i < j < |locks| && Read(now, locks[i].name) == Some(locks[i].replicas)
               ==> Read(now, locks[j].name) == Some(locks[j].replicas))
  {
    forall i | 0 <= i < |locks|
      ensures AtLock(now, locks[i]) <==> Read(now, locks[i].name) == Some(locks[i].replicas)
      ensures Unchanged(old_, now, locks[i]) <==> AsBefore(old_, now, locks[i].name)
    {}
    if (forall i :: 0 <= i < |locks| ==> AsBefore(old_, now, locks[i].name)) && NoneHeldBeforePending(now, locks) {
      var k := 0;
      while k < |locks| && !AtLock(now, locks[k])
        invariant 0 <= k <= |locks| && forall i :: 0 <= i < k ==> !AtLock(now, locks[i])
      {
        k := k + 1;
      }
      if k > 0 { assert PendingRun(old_, now, locks, k); }
    }
  }

  /** The locked groups read the same before and after. */
  ghost predicate Untouched(groups: seq<NodeGroup>, now: seq<NodeGroup>, locks: seq<GroupLock>) {
    forall i :: 0 <= i < |locks| ==> Read(now, locks[i].name) == Read(groups, locks[i].name)
  }

  /** A write that leaves every locked group alone, whatever else it changes, is accepted exactly when all
      of them exist and no group that is already at its lock precedes one that is not. */
  lemma UntouchedAcceptedExactly(groups: seq<NodeGroup>, now: seq<NodeGroup>, locks: seq<GroupLock>)
    requires Untouched(groups, now, locks)
    ensures Accepts(groups, now, locks) <==> AllExist(groups, locks) && NoneHeldBeforePending(groups, locks)
  {
    SameListAcceptedExactly(groups, locks);
    if Accepts(groups, now, locks) { AcceptsReadsLockedOnly(groups, now, groups, locks); }
    if Accepts(groups, groups, locks) { AcceptsReadsLockedOnly(groups, groups, now, locks); }
  }

  /** RFC 0004 promises that a locked group may always keep its old value. It may not: here nothing
      changes and the write is refused, since the first group already has its locked value. */
  lemma UnchangedCanBeRefused()
    ensures !Accepts([NodeGroup("a", 2), NodeGroup("b", 1)], [NodeGroup("a", 2), NodeGroup("b", 1)],
                     [GroupLock("a", 2), GroupLock("b", 2)])
  {
    var gs, locks := [NodeGroup("a", 2), NodeGroup("b", 1)], [GroupLock("a", 2), GroupLock("b", 2)];
    assert gs[1..] == [NodeGroup("b", 1)];
    assert Read(gs, "a") == Some(2) && Read(gs, "b") == Read(gs[1..], "b") == Some(1);
    assert AtLock(gs, locks[0]) && !AtLock(gs, locks[1]);
    UntouchedAcceptedExactly(gs, gs, locks);
  }
}
