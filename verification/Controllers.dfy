/** The controllers' calls, each proved to be one step of `Protocol`. */
module Controllers {
  import opened Lex
  import opened Integers
  import opened ScaleViewLocks
  import opened LockGuard
  import opened Protocol
  import opened ScaleViewWebhooks

  /** How a reconcile action ends. */
  datatype Outcome = Continue | Requeue | RequeueSoon | Failed

  /** The stored RisingWave object, at every resource version it has had. */
  class ApiServer {
    const uid: nat
    var hist: seq<RisingWave>

    constructor (uid: nat, components: Components)
      ensures this.uid == uid && hist == [RisingWave([], components)]
    {
      this.uid := uid;
      hist := [RisingWave([], components)];
    }

    /** A status update carries the resource version it was read at and conflicts with any later one. */
    method UpdateStatus(snap: nat, locks: seq<Lock>) returns (conflict: bool)
      requires snap < |hist|
      modifies this
      ensures hist == CompareAndSwap(old(hist), snap, locks)
      ensures conflict <==> snap != old(|hist|) - 1
      ensures hist == if conflict then old(hist) else old(hist) + [RisingWave(locks, old(hist[|hist| - 1].components))]
    {
      conflict := snap != |hist| - 1;
      if !conflict {
        hist := hist + [hist[snap].(locks := locks)];
      }
    }

    /** A spec write, on whatever version is current, through the validating webhook. */
    method PatchSpec(components: Components) returns (rejected: bool)
      requires hist != []
      modifies this
      ensures hist == WriteComponents(old(hist), components)
      ensures rejected <==> hist == old(hist)
      ensures !rejected ==> hist == old(hist) + [RisingWave(old(hist[|hist| - 1].locks), components)]
    {
      var cur := hist[|hist| - 1];
      var errors := LockGuard.ValidateUpdate(cur.components, components, cur.locks);
      rejected := errors > 0;
      if !rejected {
        hist := hist + [cur.(components := components)];
      }
    }
  }

  ghost predicate CurrentAt(locks: seq<Lock>, scaleView: ScaleView, i: int) {
    0 <= i < |locks| && FirstRecord(locks, scaleView, i) && locks[i].generation == scaleView.generation
  }

  /** The record of the scale view is of the generation at hand. */
  ghost predicate LockIsCurrent(locks: seq<Lock>, scaleView: ScaleView) {
    exists i :: CurrentAt(locks, scaleView, i)
  }

  lemma CurrentByIndex(locks: seq<Lock>, scaleView: ScaleView)
    ensures LockIsCurrent(locks, scaleView) <==>
            var i := IndexOf(locks, scaleView); i.Some? && locks[i.value].generation == scaleView.generation
  {
    var i := IndexOf(locks, scaleView);
    if i.Some? && locks[i.value].generation == scaleView.generation { assert CurrentAt(locks, scaleView, i.value); }
    if k :| CurrentAt(locks, scaleView, k) { IndexIsFirst(locks, scaleView, k); }
  }

  ghost predicate Moved(groups: seq<NodeGroup>, l: GroupLock) {
    Read(groups, l.name).Some? && Read(groups, l.name).value != l.replicas
  }

  /** The record is of the generation at hand, and one of its groups is there with another number. */
  ghost predicate MovesCurrent(rw: RisingWave, scaleView: ScaleView) {
    exists i, k :: CurrentAt(rw.locks, scaleView, i) && 0 <= k < |rw.locks[i].groupLocks|
                   && Moved(rw.components.Get(scaleView.targetRef.component), rw.locks[i].groupLocks[k])
  }

  class ScaleViewController {
    const scaleView: ScaleView
    var locked: bool
    var replicas: Option<int>

    constructor (scaleView: ScaleView, locked: bool, replicas: Option<int>)
      ensures this.scaleView == scaleView && this.locked == locked && this.replicas == replicas
    {
      this.scaleView, this.locked, this.replicas := scaleView, locked, replicas;
    }

    /** One `GrabLock` step. The controller believes it holds the lock only if the write went through. */
    method GrabOrUpdateScaleViewLock(server: ApiServer, snap: nat) returns (outcome: Outcome)
      requires SchemaValid(scaleView) && snap < |server.hist|
      modifies this`locked, server
      ensures server.hist == AfterGrab(server.uid, old(server.hist), snap, scaleView)
      ensures outcome == Requeue <==> server.hist != old(server.hist)
      ensures locked == (old(locked) || outcome == Requeue)
      ensures LockIsCurrent(old(server.hist)[snap].locks, scaleView) ==>
                outcome == Continue && server.hist == old(server.hist)
      ensures outcome == Requeue ==>
                && |server.hist| == |old(server.hist)| + 1
                && LockIsCurrent(server.hist[|server.hist| - 1].locks, scaleView)
      ensures outcome == Continue <==>
                (scaleView.targetRef.uid != Some(server.uid) || LockIsCurrent(old(server.hist)[snap].locks, scaleView))
    {
      if scaleView.targetRef.uid != Some(server.uid) {
        return Continue;
      }
      CurrentByIndex(server.hist[snap].locks, scaleView);
      var lockMgr := new ScaleViewLockManager(server.hist[snap].locks);
      var updated, err := lockMgr.GrabOrUpdateScaleViewLockFor(scaleView);
      if err.Some? {
        return Failed;
      }
      if updated {
        var conflict := server.UpdateStatus(snap, lockMgr.scaleViews);
        if conflict {
          return Failed;
        }
        locked := true;
        GrabIsIdempotent(old(server.hist)[snap].locks, scaleView);
        CurrentByIndex(lockMgr.scaleViews, scaleView);
        return Requeue;
      }
      return Continue;
    }

    /** One `SyncReplicas` step. */
    method SyncGroupReplicasToRisingWave(server: ApiServer, snap: nat) returns (outcome: Outcome)
      requires snap < |server.hist|
      requires forall l, j, k :: l in server.hist[snap].locks && 0 <= j < k < |l.groupLocks|
                 ==> l.groupLocks[j].name != l.groupLocks[k].name
      modifies server
      ensures server.hist == AfterSync(server.uid, old(server.hist), snap, scaleView)
      ensures outcome == RequeueSoon <==>
              scaleView.targetRef.uid == Some(server.uid) && !LockIsCurrent(old(server.hist)[snap].locks, scaleView)
      ensures outcome == Continue || server.hist == old(server.hist)
      ensures outcome == Failed <==>
              && scaleView.targetRef.uid == Some(server.uid) && server.hist == old(server.hist)
              && MovesCurrent(old(server.hist)[snap], scaleView)
      ensures outcome != Requeue
    {
      if scaleView.targetRef.uid != Some(server.uid) {
        return Continue;
      }
      var targetObj := server.hist[snap];
      CurrentByIndex(targetObj.locks, scaleView);
      var lockMgr := new ScaleViewLockManager(targetObj.locks);
      var i := lockMgr.GetScaleViewLockIndex(scaleView);
      if i.None? || targetObj.locks[i.value].generation != scaleView.generation {
        return RequeueSoon;
      }
      var lockObj := targetObj.locks[i.value];
      assert lockObj in server.hist[snap].locks;
      var groups := targetObj.components.Get(scaleView.targetRef.component);
      AppliedChangesExactly(groups, lockObj.groupLocks);
      var changed, edited := WriteLocked(targetObj.components, scaleView.targetRef.component, lockObj.groupLocks);
      if changed {
        var cur := server.hist[|server.hist| - 1];
        var rejected := server.PatchSpec(cur.components.With(scaleView.targetRef.component, edited));
        return if rejected then Failed else Continue;
      }
      return Continue;
    }

    /** Status replicas are the int32 sum of what runs in the scale view's groups, or zero off target. */
    method SyncGroupReplicasStatusFromRisingWave(uid: Option<nat>, running: seq<NodeGroup>)
      modifies this
      ensures scaleView.targetRef.uid == uid && uid.Some? ==>
        replicas == Some(Wrap32(GroupTotal(scaleView.scalePolicy, running))) && locked == old(locked)
      ensures !(scaleView.targetRef.uid == uid && uid.Some?) ==> replicas == Some(0) && !locked
    {
      if uid.None? || scaleView.targetRef.uid != uid {
        replicas, locked := Some(0), false;
        return;
      }
      var sum := 0;
      for i := 0 to |scaleView.scalePolicy|
        invariant Wrap32(sum + GroupTotal(scaleView.scalePolicy[i..], running))
               == Wrap32(GroupTotal(scaleView.scalePolicy, running))
        invariant IsInt32(sum) && locked == old(locked)
      {
        var r := Read(running, scaleView.scalePolicy[i].group);
        var runningReplicas := if r.Some? then r.value else 0;
        WrapAbsorbs(sum + runningReplicas, GroupTotal(scaleView.scalePolicy[i + 1..], running));
        sum := Wrap32(sum + runningReplicas);
      }
      Wrap32Fits(sum);
      replicas := Some(sum);
    }
  }

  /** Writes every locked value into a copy of the object; `changed` says whether the copy differs. */
  method WriteLocked(components: Components, component: Component, locks: seq<GroupLock>)
    returns (changed: bool, groups: seq<NodeGroup>)
    requires forall j, k :: 0 <= j < k < |locks| ==> locks[j].name != locks[k].name
    ensures groups == ApplyLocks(components.Get(component), locks)
    ensures changed <==> groups != components.Get(component)
  {
    var helper := new RisingWaveScaleViewHelper(components, component);
    var original := components.Get(component);
    changed := false;
    for i := 0 to |locks|
      invariant helper.component == component
      invariant ApplyLocks(helper.components.Get(component), locks[i..]) == ApplyLocks(original, locks)
      invariant !changed ==> helper.components.Get(component) == original
      invariant changed ==> exists k :: 0 <= k < i && Moved(original, locks[k])
      invariant forall k :: i <= k < |locks| ==>
        Read(helper.components.Get(component), locks[k].name) == Read(original, locks[k].name)
    {
      ghost var before := helper.components.Get(component);
      var updated := helper.WriteReplicas(locks[i].name, locks[i].replicas);
      WriteIsVisible(before, locks[i].name, locks[i].replicas);
      assert updated ==> Moved(original, locks[i]);
      forall k | i < k < |locks|
        ensures Read(helper.components.Get(component), locks[k].name) == Read(before, locks[k].name)
      {
        ReadAfterWrite(before, locks[i].name, locks[i].replicas, locks[k].name);
      }
      changed := changed || updated;
    }
    groups := helper.components.Get(component);
    if changed {
      ghost var k :| 0 <= k < |locks| && Moved(original, locks[k]);
      ApplyReachesLocks(original, locks, k);
    }
  }

  /** Writing all locked values changes something exactly if some group is there with another number. */
  lemma {:induction false} AppliedChangesExactly(groups: seq<NodeGroup>, locks: seq<GroupLock>)
    requires forall j, k :: 0 <= j < k < |locks| ==> locks[j].name != locks[k].name
    ensures ApplyLocks(groups, locks) != groups <==> exists k :: 0 <= k < |locks| && Moved(groups, locks[k])
  {
    if k :| 0 <= k < |locks| && Moved(groups, locks[k]) {
      ApplyReachesLocks(groups, locks, k);
    } else if locks != [] {
      assert !Moved(groups, locks[0]);
      WriteIsVisible(groups, locks[0].name, locks[0].replicas);
      assert forall k :: 0 <= k < |locks[1..]| ==> locks[1..][k] == locks[k + 1];
      AppliedChangesExactly(groups, locks[1..]);
    }
  }

  lemma WriteIsVisible(groups: seq<NodeGroup>, name: string, replicas: int)
    ensures Write(groups, name, replicas) != groups <==>
            Read(groups, name).Some? && Read(groups, name).value != replicas
  {
    ReadAfterWrite(groups, name, replicas, name);
    if Read(groups, name).None? || Read(groups, name).value == replicas { WriteSame(groups, name, replicas); }
  }

  /** What reading the scale view of a record gives. */
  datatype OwnerRead = Owner(uid: nat) | Gone | Unreadable

  ghost predicate AllRead(owners: seq<OwnerRead>) {
    forall o :: o in owners ==> !o.Unreadable?
  }

  class RisingWaveController {
    /** The release action and the status write after it: `FinishSweep`, unless a scale view cannot be
        read; then the records are left alone. */
    method ReleaseScaleViewLock(server: ApiServer, snap: nat, owners: seq<OwnerRead>) returns (conflict: bool)
      requires snap < |server.hist| && |owners| == |server.hist[snap].locks|
      modifies server
      ensures server.hist == if !AllRead(owners) then old(server.hist)
        else AfterSweep(old(server.hist), Sweep(snap, Verdicts(old(server.hist)[snap].locks, owners), {}))
      ensures conflict ==> server.hist == old(server.hist) && snap < |server.hist| - 1
      ensures conflict <==>
              && AllRead(owners) && snap < |old(server.hist)| - 1
              && exists j :: 0 <= j < |owners| && !OwnedAt(old(server.hist)[snap].locks, owners, j)
    {
      var scaleViews := server.hist[snap].locks;
      var alive := AliveRecords(scaleViews, owners);
      KeepByVerdicts(scaleViews, owners);
      AllKeptExactly(scaleViews, owners);
      conflict := false;
      if alive.Some? && alive.value != scaleViews {
        conflict := server.UpdateStatus(snap, alive.value);
      }
    }
  }

  ghost function Owned(locks: seq<Lock>, owners: seq<OwnerRead>): seq<Lock>
    requires |owners| == |locks|
  {
    if locks == [] then []
    else (if owners[0] == Owner(locks[0].uid) then [locks[0]] else []) + Owned(locks[1..], owners[1..])
  }

  /** The loop over the records: a record stays when its scale view is found with the same uid; the
      first failed read ends the loop without a result. */
  method AliveRecords(scaleViews: seq<Lock>, owners: seq<OwnerRead>) returns (alive: Option<seq<Lock>>)
    requires |owners| == |scaleViews|
    ensures alive == if AllRead(owners) then Some(Owned(scaleViews, owners)) else None
  {
    var aliveScaleView := [];
    for i := 0 to |scaleViews|
      invariant aliveScaleView + Owned(scaleViews[i..], owners[i..]) == Owned(scaleViews, owners)
      invariant AllRead(owners[..i])
    {
      var s := scaleViews[i];
      OwnedStep(scaleViews, owners, i, aliveScaleView);
      match owners[i]
      case Unreadable =>
        assert owners[i] in owners;
        return None;
      case Gone =>
      case Owner(uid) =>
        if s.uid == uid {
          aliveScaleView := aliveScaleView + [s];
        }
    }
    TakeAll(owners);
    assert aliveScaleView + Owned(scaleViews[|scaleViews|..], owners[|scaleViews|..]) == aliveScaleView;
    alive := Some(aliveScaleView);
  }

  lemma OwnedStep(locks: seq<Lock>, owners: seq<OwnerRead>, i: nat, alive: seq<Lock>)
    requires |owners| == |locks| && i < |locks|
    requires alive + Owned(locks[i..], owners[i..]) == Owned(locks, owners)
    ensures owners[i] == Owner(locks[i].uid) ==>
              (alive + [locks[i]]) + Owned(locks[i + 1..], owners[i + 1..]) == Owned(locks, owners)
    ensures owners[i] != Owner(locks[i].uid) ==> alive + Owned(locks[i + 1..], owners[i + 1..]) == Owned(locks, owners)
    ensures AllRead(owners[..i]) && !owners[i].Unreadable? ==> AllRead(owners[..i + 1])
  {
    OwnedHead(locks[i..], owners[i..], alive);
    assert locks[i..][1..] == locks[i + 1..] && owners[i..][1..] == owners[i + 1..];
    TakeNext(owners, i);
  }

  lemma OwnedHead(locks: seq<Lock>, owners: seq<OwnerRead>, alive: seq<Lock>)
    requires |owners| == |locks| && locks != []
    ensures alive + Owned(locks, owners) ==
            (if owners[0] == Owner(locks[0].uid) then alive + [locks[0]] else alive) + Owned(locks[1..], owners[1..])
  {}

  /** A record is kept exactly if its scale view is found with the same uid. */
  lemma {:induction false} KeptExactly(locks: seq<Lock>, owners: seq<OwnerRead>, l: Lock)
    requires |owners| == |locks|
    ensures l in Owned(locks, owners) <==> exists j :: OwnedAt(locks, owners, j) && locks[j] == l
  {
    if locks != [] {
      KeptExactly(locks[1..], owners[1..], l);
      if j :| OwnedAt(locks[1..], owners[1..], j) && locks[1..][j] == l { assert OwnedAt(locks, owners, j + 1); }
      if j :| OwnedAt(locks, owners, j) && locks[j] == l && j > 0 { assert OwnedAt(locks[1..], owners[1..], j - 1); }
      if owners[0] == Owner(locks[0].uid) { assert OwnedAt(locks, owners, 0); }
    }
  }

  /** All records are kept exactly if every scale view is found with the same uid. */
  lemma {:induction false} AllKeptExactly(locks: seq<Lock>, owners: seq<OwnerRead>)
    requires |owners| == |locks|
    ensures |Owned(locks, owners)| <= |locks|
    ensures |Owned(locks, owners)| == |locks| <==> forall j :: 0 <= j < |locks| ==> OwnedAt(locks, owners, j)
    ensures |Owned(locks, owners)| == |locks| ==> Owned(locks, owners) == locks
  {
    if locks != [] {
      AllKeptExactly(locks[1..], owners[1..]);
      forall j | 0 < j < |locks| ensures OwnedAt(locks, owners, j) <==> OwnedAt(locks[1..], owners[1..], j - 1) {}
      assert locks == [locks[0]] + locks[1..];
      if forall j :: 0 <= j < |locks| ==> OwnedAt(locks, owners, j) {
        forall j | 0 <= j < |locks[1..]| ensures OwnedAt(locks[1..], owners[1..], j) {
          assert OwnedAt(locks, owners, j + 1);
        }
        assert OwnedAt(locks, owners, 0);
      }
    }
  }

  ghost predicate OwnedAt(locks: seq<Lock>, owners: seq<OwnerRead>, j: int) {
    0 <= j < |locks| && j < |owners| && owners[j] == Owner(locks[j].uid)
  }

  ghost function Verdicts(locks: seq<Lock>, owners: seq<OwnerRead>): (r: seq<bool>)
    requires |owners| == |locks|
    ensures |r| == |locks| && forall j :: 0 <= j < |r| ==> (r[j] <==> owners[j] == Owner(locks[j].uid))
  {
    seq(|locks|, j requires 0 <= j < |locks| => owners[j] == Owner(locks[j].uid))
  }

  lemma {:induction false} KeepByVerdicts(locks: seq<Lock>, owners: seq<OwnerRead>)
    requires |owners| == |locks|
    ensures Keep(locks, Verdicts(locks, owners)) == Owned(locks, owners)
  {
    if locks != [] {
      assert Verdicts(locks, owners)[1..] == Verdicts(locks[1..], owners[1..]);
      KeepByVerdicts(locks[1..], owners[1..]);
    }
  }
}
