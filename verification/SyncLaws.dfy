/** What the sync of a scale view achieves: what it holds, what else it writes, and when it gets
    through at all. */
module SyncLaws {
  import opened Lex
  import opened ScaleViewLocks
  import opened LockGuard
  import opened Protocol

  // ---- What a sync that gets through holds ----

  lemma AppliedAtLocks(groups: seq<NodeGroup>, locks: seq<GroupLock>)
    requires forall j, k :: 0 <= j < k < |locks| ==> locks[j].name != locks[k].name
    ensures forall i :: 0 <= i < |locks| ==>
              (AtLock(ApplyLocks(groups, locks), locks[i]) <==> Read(groups, locks[i].name).Some?)
    ensures forall i :: 0 <= i < |locks| ==>
              (Read(ApplyLocks(groups, locks), locks[i].name).Some? <==> Read(groups, locks[i].name).Some?)
  {
    forall i | 0 <= i < |locks|
      ensures AtLock(ApplyLocks(groups, locks), locks[i]) <==> Read(groups, locks[i].name).Some?
      ensures Read(ApplyLocks(groups, locks), locks[i].name).Some? <==> Read(groups, locks[i].name).Some?
    {
      ApplyReachesLocks(groups, locks, i);
    }
  }

  /** A patch that gets through puts the locked groups at their values exactly if all of them are in
      the list the controller has read. */
  lemma SyncHoldsExactly(s: State, snap: nat, view: ScaleView)
    requires Inv(s) && Enabled(s, SyncReplicas(snap, view)) && Apply(s, SyncReplicas(snap, view)) != s
    ensures SplitOf(view).Some?
    ensures HeldIn(Apply(s, SyncReplicas(snap, view)), LockOf(view)) <==>
            AllExist(s.hist[snap].components.Get(view.targetRef.component), LockOf(view).groupLocks)
  {
    SyncWrote(s, snap, view);
    LockNamesDistinct(view);
    AppliedAtLocks(s.hist[snap].components.Get(view.targetRef.component), LockOf(view).groupLocks);
  }

  lemma RecordHasGroups(s: State, m: Lock, view: ScaleView)
    requires Inv(s) && view in s.versions && SplitOf(view).Some? && Recorded(s, m) && Owns(m, view)
    ensures m.component == view.targetRef.component && GroupsOf(m) == GroupsOf(LockOf(view))
  {
    assert RecordsSound(s, Current(s));
    var v :| v in s.versions && IsLockOf(s.uid, v, m);
    LockGroups(v);
    LockGroups(view);
  }

  /** The guard has seen every group of a current record, so all of them exist after the write. */
  lemma GuardedGroupsExist(s: State, components: Components, m: Lock, locks: seq<GroupLock>)
    requires Recorded(s, m) && GuardAccepts(Current(s).components, components, Current(s).locks)
    requires forall i :: 0 <= i < |locks| ==> locks[i].name in GroupsOf(m)
    ensures AllExist(components.Get(m.component), locks)
  {
    GuardedRecord(s, components, m);
    AcceptedIsAllOrNothing(Current(s).components.Get(m.component), components.Get(m.component), m.groupLocks);
    forall i | 0 <= i < |locks| ensures Read(components.Get(m.component), locks[i].name).Some? {
      assert locks[i].name in GroupsOf(m);
      var g :| g in m.groupLocks && g.name == locks[i].name;
      var k :| 0 <= k < |m.groupLocks| && m.groupLocks[k] == g;
    }
  }

  /** If the guard let the patch through while the scale view has a record, the list it was made from had
      all groups. */
  lemma PatchedHadGroups(s: State, groups: seq<NodeGroup>, view: ScaleView, m: Lock, after: seq<RisingWave>)
    requires Inv(s) && view in s.versions && SplitOf(view).Some? && Recorded(s, m) && Owns(m, view)
    requires Patched(s.hist, ApplyLocks(groups, LockOf(view).groupLocks), view.targetRef.component, after)
    ensures AllExist(groups, LockOf(view).groupLocks)
  {
    var locks := LockOf(view).groupLocks;
    RecordHasGroups(s, m, view);
    forall i | 0 <= i < |locks| ensures locks[i].name in GroupsOf(m) { assert locks[i] in locks; }
    GuardedGroupsExist(s, after[|after| - 1].components, m, locks);
    LockNamesDistinct(view);
    AppliedAtLocks(groups, locks);
  }

  lemma SnapshotHasGroups(s: State, snap: nat, view: ScaleView, m: Lock)
    requires Inv(s) && Enabled(s, SyncReplicas(snap, view)) && Apply(s, SyncReplicas(snap, view)) != s
    requires Recorded(s, m) && Owns(m, view)
    ensures SplitOf(view).Some?
    ensures AllExist(s.hist[snap].components.Get(view.targetRef.component), LockOf(view).groupLocks)
  {
    SyncWrote(s, snap, view);
    PatchedHadGroups(s, s.hist[snap].components.Get(view.targetRef.component), view, m,
                     Apply(s, SyncReplicas(snap, view)).hist);
  }

  /** A patch that gets through while the scale view has a record, of whatever generation, puts all
      its groups at their values, and they add up to the total the scale view asks for exactly if that is
      within reach of its limits. */
  lemma SyncReachesTotal(s: State, snap: nat, view: ScaleView, m: Lock)
    requires Inv(s) && Enabled(s, SyncReplicas(snap, view)) && Apply(s, SyncReplicas(snap, view)) != s
    requires Recorded(s, m) && Owns(m, view)
    ensures SplitOf(view).Some?
    ensures var t := Apply(s, SyncReplicas(snap, view));
      && HeldIn(t, LockOf(view))
      && (ReadTotal(Current(t).components.Get(view.targetRef.component), LockOf(view).groupLocks) == TotalOf(view)
          <==> InReach(view))
  {
    SnapshotHasGroups(s, snap, view, m);
    SyncHoldsExactly(s, snap, view);
    HeldReachesTotal(Apply(s, SyncReplicas(snap, view)), view);
  }

  lemma HeldReachesTotal(s: State, view: ScaleView)
    requires SchemaValid(view) && SplitOf(view).Some? && HeldIn(s, LockOf(view))
    ensures ReadTotal(Current(s).components.Get(view.targetRef.component), LockOf(view).groupLocks) == TotalOf(view)
            <==> InReach(view)
  {
    LockCarriesTotal(view);
    HeldTotal(Current(s).components.Get(view.targetRef.component), LockOf(view).groupLocks);
  }

  // ---- A sync from the current version ----

  /** The controller has read the current object and finds its record there, of its own generation. */
  ghost predicate ReadyToSync(s: State, view: ScaleView, i: nat) {
    && Inv(s) && view in s.versions && view.targetRef.uid == Some(s.uid)
    && IndexOf(Current(s).locks, view) == Some(i) && Current(s).locks[i].generation == view.generation
  }

  ghost predicate NothingToWrite(s: State, view: ScaleView)
    requires Sane(s) && SplitOf(view).Some?
  {
    var groups := Current(s).components.Get(view.targetRef.component);
    ApplyLocks(groups, LockOf(view).groupLocks) == groups
  }

  ghost function SyncNow(s: State, view: ScaleView): State
    requires Sane(s) && view in s.versions
  {
    Apply(s, SyncReplicas(|s.hist| - 1, view))
  }

  lemma ReadyRecord(s: State, view: ScaleView, i: nat)
    requires ReadyToSync(s, view, i)
    ensures SplitOf(view).Some? && Current(s).locks[i] == LockOf(view) && SchemaValid(view)
  {
    assert RecordsSound(s, Current(s));
    assert Current(s).locks[i] in Current(s).locks;
    RecordOfView(s, Current(s).locks, view, i);
  }

  lemma AfterSyncNow(uid: nat, hist: seq<RisingWave>, view: ScaleView, i: nat)
    requires hist != [] && view.targetRef.uid == Some(uid) && IndexOf(hist[|hist| - 1].locks, view) == Some(i)
    requires hist[|hist| - 1].locks[i].generation == view.generation
    ensures var c, cur := view.targetRef.component, hist[|hist| - 1];
            var groups := ApplyLocks(cur.components.Get(c), cur.locks[i].groupLocks);
            AfterSync(uid, hist, |hist| - 1, view) != hist <==>
            groups != cur.components.Get(c) && GuardAccepts(cur.components, cur.components.With(c, groups), cur.locks)
  {}

  lemma SyncNowExactly(s: State, view: ScaleView, i: nat)
    requires ReadyToSync(s, view, i)
    ensures SplitOf(view).Some?
    ensures var c, cur := view.targetRef.component, Current(s);
            var next := cur.components.With(c, ApplyLocks(cur.components.Get(c), LockOf(view).groupLocks));
            SyncNow(s, view) != s <==> !NothingToWrite(s, view) && GuardAccepts(cur.components, next, cur.locks)
  {
    ReadyRecord(s, view, i);
    SyncNowFrom(s, view, i);
  }

  lemma SyncNowFrom(s: State, view: ScaleView, i: nat)
    requires Sane(s) && view in s.versions && view.targetRef.uid == Some(s.uid) && SplitOf(view).Some?
    requires IndexOf(Current(s).locks, view) == Some(i) && Current(s).locks[i] == LockOf(view)
    ensures var c, cur := view.targetRef.component, Current(s);
            var next := cur.components.With(c, ApplyLocks(cur.components.Get(c), LockOf(view).groupLocks));
            SyncNow(s, view) != s <==> !NothingToWrite(s, view) && GuardAccepts(cur.components, next, cur.locks)
  {
    AfterSyncNow(s.uid, s.hist, view, i);
    SyncStep(s, |s.hist| - 1, view);
  }

  /** A sync that finds nothing to write finds the groups at their values, as far as they exist. */
  lemma NothingToWriteHoldsExactly(s: State, view: ScaleView, i: nat)
    requires ReadyToSync(s, view, i)
    ensures SplitOf(view).Some?
    ensures NothingToWrite(s, view) ==> SyncNow(s, view) == s
    ensures NothingToWrite(s, view) ==>
              (HeldIn(s, LockOf(view)) <==>
               AllExist(Current(s).components.Get(view.targetRef.component), LockOf(view).groupLocks))
    ensures HeldIn(s, LockOf(view)) ==> NothingToWrite(s, view)
    ensures HeldIn(s, LockOf(view)) ==>
              (ReadTotal(Current(s).components.Get(view.targetRef.component), LockOf(view).groupLocks) == TotalOf(view)
               <==> InReach(view))
  {
    ReadyRecord(s, view, i);
    LockNamesDistinct(view);
    SyncNowExactly(s, view, i);
    HeldExactly(Current(s).components.Get(view.targetRef.component), LockOf(view).groupLocks);
    if HeldIn(s, LockOf(view)) { HeldReachesTotal(s, view); }
  }

  lemma HeldExactly(groups: seq<NodeGroup>, locks: seq<GroupLock>)
    requires forall j, k :: 0 <= j < k < |locks| ==> locks[j].name != locks[k].name
    ensures (forall i :: 0 <= i < |locks| ==> AtLock(groups, locks[i]))
            <==> ApplyLocks(groups, locks) == groups && AllExist(groups, locks)
  {
    AppliedAtLocks(groups, locks);
    if forall i :: 0 <= i < |locks| ==> AtLock(groups, locks[i]) { ApplyHeld(groups, locks); }
  }

  lemma {:induction false} ApplyHeld(groups: seq<NodeGroup>, locks: seq<GroupLock>)
    requires forall i :: 0 <= i < |locks| ==> AtLock(groups, locks[i])
    ensures ApplyLocks(groups, locks) == groups
    decreases locks
  {
    if locks != [] {
      assert AtLock(groups, locks[0]);
      WriteSame(groups, locks[0].name, locks[0].replicas);
      forall i | 0 <= i < |locks[1..]| ensures AtLock(groups, locks[1..][i]) { assert AtLock(groups, locks[i + 1]); }
      ApplyHeld(groups, locks[1..]);
    }
  }

  // ---- When it gets through ----

  /** A record that a write of somebody else's groups leaves in order. */
  ghost predicate OutOfTheWay(components: Components, l: Lock) {
    && AllExist(components.Get(l.component), l.groupLocks)
    && NoneHeldBeforePending(components.Get(l.component), l.groupLocks)
  }

  /** Another record's groups read the same before and after. */
  lemma OtherRecordUntouched(locks: seq<Lock>, i: nat, j: nat, components: Components)
    requires Exclusive(locks) && i < |locks| && j < |locks| && i != j
    ensures var c := locks[i].component;
            var next := components.With(c, ApplyLocks(components.Get(c), locks[i].groupLocks));
            forall k :: 0 <= k < |locks[j].groupLocks| ==>
              Read(next.Get(locks[j].component), locks[j].groupLocks[k].name)
              == Read(components.Get(locks[j].component), locks[j].groupLocks[k].name)
  {
    var c := locks[i].component;
    if locks[j].component == c {
      var low, high := if i < j then i else j, if i < j then j else i;
      assert GroupsOf(locks[low]) * GroupsOf(locks[high]) == {};
      forall k | 0 <= k < |locks[j].groupLocks|
        ensures Read(ApplyLocks(components.Get(c), locks[i].groupLocks), locks[j].groupLocks[k].name)
                == Read(components.Get(c), locks[j].groupLocks[k].name)
      {
        DisjointNames(locks[i], locks[j], k);
        ApplyLeavesOthers(components.Get(c), locks[i].groupLocks, locks[j].groupLocks[k].name);
      }
    }
  }

  lemma DisjointNames(l: Lock, m: Lock, k: nat)
    requires GroupsOf(l) * GroupsOf(m) == {} && k < |m.groupLocks|
    ensures forall h :: 0 <= h < |l.groupLocks| ==> l.groupLocks[h].name != m.groupLocks[k].name
  {
    assert m.groupLocks[k] in m.groupLocks;
    assert m.groupLocks[k].name in GroupsOf(m);
    forall h | 0 <= h < |l.groupLocks| ensures l.groupLocks[h].name != m.groupLocks[k].name {
      assert l.groupLocks[h] in l.groupLocks;
      assert l.groupLocks[h].name in GroupsOf(l);
      assert l.groupLocks[h].name !in GroupsOf(l) * GroupsOf(m);
    }
  }

  lemma OtherRecordAccepted(locks: seq<Lock>, i: nat, j: nat, components: Components)
    requires Exclusive(locks) && i < |locks| && j < |locks| && i != j
    ensures var c := locks[i].component;
            var next := components.With(c, ApplyLocks(components.Get(c), locks[i].groupLocks));
            Accepts(components.Get(locks[j].component), next.Get(locks[j].component), locks[j].groupLocks)
            <==> OutOfTheWay(components, locks[j])
  {
    var c, d := locks[i].component, locks[j].component;
    var next := components.With(c, ApplyLocks(components.Get(c), locks[i].groupLocks));
    OtherRecordUntouched(locks, i, j, components);
    UntouchedAcceptedExactly(components.Get(d), next.Get(d), locks[j].groupLocks);
  }

  lemma OwnRecordAccepted(groups: seq<NodeGroup>, locks: seq<GroupLock>)
    requires forall j, k :: 0 <= j < k < |locks| ==> locks[j].name != locks[k].name
    ensures Accepts(groups, ApplyLocks(groups, locks), locks) <==> AllExist(groups, locks)
  {
    AppliedAtLocks(groups, locks);
    if Accepts(groups, ApplyLocks(groups, locks), locks) {
      AcceptedIsAllOrNothing(groups, ApplyLocks(groups, locks), locks);
    }
  }

  /** Nobody else's record stands in the way. */
  ghost predicate OthersOutOfTheWay(rw: RisingWave, i: nat) {
    forall j :: 0 <= j < |rw.locks| && j != i ==> OutOfTheWay(rw.components, rw.locks[j])
  }

  lemma GuardOnSync(rw: RisingWave, i: nat)
    requires Exclusive(rw.locks) && i < |rw.locks|
    requires forall j, k :: 0 <= j < k < |rw.locks[i].groupLocks| ==>
               rw.locks[i].groupLocks[j].name != rw.locks[i].groupLocks[k].name
    ensures var l := rw.locks[i];
            var next := rw.components.With(l.component, ApplyLocks(rw.components.Get(l.component), l.groupLocks));
            GuardAccepts(rw.components, next, rw.locks)
            <==> AllExist(rw.components.Get(l.component), l.groupLocks) && OthersOutOfTheWay(rw, i)
  {
    var l := rw.locks[i];
    var next := rw.components.With(l.component, ApplyLocks(rw.components.Get(l.component), l.groupLocks));
    OwnRecordAccepted(rw.components.Get(l.component), l.groupLocks);
    forall j | 0 <= j < |rw.locks| && j != i
      ensures Accepts(rw.components.Get(rw.locks[j].component), next.Get(rw.locks[j].component), rw.locks[j].groupLocks)
              <==> OutOfTheWay(rw.components, rw.locks[j])
    {
      OtherRecordAccepted(rw.locks, i, j, rw.components);
    }
  }

  /** Progress, exactly: a sync from the current version that has something to write gets through if and
      only if its own groups exist and every other record has its groups and has none at its value
      before one that is not. */
  lemma SyncGetsThroughExactly(s: State, view: ScaleView, i: nat)
    requires ReadyToSync(s, view, i)
    ensures SplitOf(view).Some?
    ensures !NothingToWrite(s, view) ==>
              (SyncNow(s, view) != s <==>
               AllExist(Current(s).components.Get(view.targetRef.component), LockOf(view).groupLocks)
               && OthersOutOfTheWay(Current(s), i))
  {
    ReadyRecord(s, view, i);
    LockNamesDistinct(view);
    assert RecordsSound(s, Current(s));
    SyncNowExactly(s, view, i);
    GuardOnSync(Current(s), i);
  }

  // ---- What else it writes ----

  ghost predicate Locks(l: Lock, name: string) {
    exists i :: 0 <= i < |l.groupLocks| && l.groupLocks[i].name == name
  }

  /** What a patch made from the list `read` leaves of a group outside the lock, of the other components and
      of the lock records. */
  ghost predicate Framed(hist: seq<RisingWave>, read: seq<NodeGroup>, l: Lock, name: string, after: seq<RisingWave>) {
    && OthersKept(hist, l.component, after)
    && var was, now := hist[|hist| - 1].components.Get(l.component), after[|after| - 1].components.Get(l.component);
       !Locks(l, name) ==>
         && Read(now, name) == Read(read, name)
         && (Read(now, name) == Read(was, name) <==> Read(read, name) == Read(was, name))
  }

  ghost predicate OthersKept(hist: seq<RisingWave>, c: Component, after: seq<RisingWave>) {
    && hist != [] && after != []
    && var was, now := hist[|hist| - 1], after[|after| - 1];
       now.locks == was.locks && forall d :: d != c ==> now.components.Get(d) == was.components.Get(d)
  }

  /** The patch carries the whole list: a group outside the lock gets the value of the controller's
      read, so it is left alone exactly if that read agrees with the current list. Other components
      and the lock records stay as they are. */
  lemma SyncFrame(s: State, snap: nat, view: ScaleView, name: string)
    requires Inv(s) && Enabled(s, SyncReplicas(snap, view)) && Apply(s, SyncReplicas(snap, view)) != s
    ensures SplitOf(view).Some?
    ensures Framed(s.hist, s.hist[snap].components.Get(view.targetRef.component), LockOf(view), name,
                   Apply(s, SyncReplicas(snap, view)).hist)
  {
    SyncStep(s, snap, view);
    SyncWrote(s, snap, view);
    AfterSyncFrame(s.uid, s.hist, snap, view, AfterSync(s.uid, s.hist, snap, view));
    PatchedFrame(s.hist, s.hist[snap].components.Get(view.targetRef.component), LockOf(view), name,
                 AfterSync(s.uid, s.hist, snap, view));
  }

  lemma PatchedFrame(hist: seq<RisingWave>, read: seq<NodeGroup>, l: Lock, name: string, after: seq<RisingWave>)
    requires Patched(hist, ApplyLocks(read, l.groupLocks), l.component, after) && OthersKept(hist, l.component, after)
    ensures Framed(hist, read, l, name, after)
  {
    if !Locks(l, name) { ApplyLeavesOthers(read, l.groupLocks, name); }
  }

  lemma AfterSyncFrame(uid: nat, hist: seq<RisingWave>, snap: nat, view: ScaleView, after: seq<RisingWave>)
    requires snap < |hist| && after == AfterSync(uid, hist, snap, view) != hist
    ensures OthersKept(hist, view.targetRef.component, after)
  {}

  // ---- What stops it ----

  lemma RecordsExclude(locks: seq<Lock>, l: Lock, m: Lock)
    requires Exclusive(locks) && l in locks && m in locks && l != m && l.component == m.component
    ensures GroupsOf(m) * GroupsOf(l) == {}
  {
    var i :| 0 <= i < |locks| && locks[i] == l;
    var j :| 0 <= j < |locks| && locks[j] == m;
    var low, high := if i < j then i else j, if i < j then j else i;
    assert GroupsOf(locks[low]) * GroupsOf(locks[high]) == {};
  }

  /** A patch that got through has met no other record in its way. */
  lemma PatchMetNobody(s: State, view: ScaleView, m: Lock, l: Lock, after: seq<RisingWave>)
    requires Inv(s) && view in s.versions && SplitOf(view).Some? && Recorded(s, m) && Owns(m, view)
    requires Recorded(s, l) && l != m && OthersKept(s.hist, view.targetRef.component, after)
    requires var c := view.targetRef.component;
             Patched(s.hist, ApplyLocks(Current(s).components.Get(c), LockOf(view).groupLocks), c, after)
    ensures OutOfTheWay(Current(s).components, l)
  {
    var c, now := view.targetRef.component, after[|after| - 1].components;
    var groups := Current(s).components.Get(l.component);
    assert RecordsSound(s, Current(s));
    RecordHasGroups(s, m, view);
    GuardedRecord(s, now, l);
    if l.component == c {
      RecordsExclude(Current(s).locks, l, m);
      forall k | 0 <= k < |l.groupLocks|
        ensures Read(now.Get(c), l.groupLocks[k].name) == Read(groups, l.groupLocks[k].name)
      {
        DisjointNames(LockOf(view), l, k);
        ApplyLeavesOthers(groups, LockOf(view).groupLocks, l.groupLocks[k].name);
      }
    }
    UntouchedAcceptedExactly(groups, now.Get(l.component), l.groupLocks);
  }

  /** One record with a group at its value before one that is not stops every sync of another scale view
      that holds a record, from every read that agrees with the current list of its component. */
  lemma MidMoveBlocksOthers(s: State, snap: nat, view: ScaleView, m: Lock, l: Lock)
    requires Enabled(s, SyncReplicas(snap, view)) && Recorded(s, m) && Owns(m, view)
    requires Recorded(s, l) && l != m && !OutOfTheWay(Current(s).components, l)
    requires var c := view.targetRef.component; s.hist[snap].components.Get(c) == Current(s).components.Get(c)
    requires Inv(s)
    ensures Apply(s, SyncReplicas(snap, view)) == s
  {
    if Apply(s, SyncReplicas(snap, view)) != s {
      SyncStep(s, snap, view);
      SyncWrote(s, snap, view);
      AfterSyncFrame(s.uid, s.hist, snap, view, AfterSync(s.uid, s.hist, snap, view));
      PatchMetNobody(s, view, m, l, AfterSync(s.uid, s.hist, snap, view));
    }
  }
}
