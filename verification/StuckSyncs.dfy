/** Two scale views that block each other stay blocked for as long as only controllers act. */
module StuckSyncs {
  import opened ScaleViewLocks
  import opened Protocol
  import opened SyncLaws

  /** A record of a live scale view's current version, in the way of others. */
  ghost predicate Stands(o: RisingWave, live: map<string, ScaleView>, l: Lock) {
    && l in o.locks && !OutOfTheWay(o.components, l)
    && l.name in live && live[l.name].uid == l.uid && live[l.name].generation == l.generation
  }

  /** No version differs from the last in its node groups. */
  ghost predicate SameGroups(hist: seq<RisingWave>) {
    hist != [] && forall k :: 0 <= k < |hist| ==> hist[k].components == hist[|hist| - 1].components
  }

  ghost predicate StuckIn(hist: seq<RisingWave>, live: map<string, ScaleView>, l: Lock, m: Lock) {
    && l != m && SameGroups(hist) && Exclusive(hist[|hist| - 1].locks)
    && Stands(hist[|hist| - 1], live, l) && Stands(hist[|hist| - 1], live, m)
  }

  /** Two records in the way. */
  ghost predicate Stuck(s: State, l: Lock, m: Lock) {
    Inv(s) && StuckIn(s.hist, s.live, l, m)
  }

  /** What controllers do while nobody edits node groups or scale views: sync scale views that hold a record,
      from any read however old, grab and update locks for live scale views, and write the status. */
  ghost predicate ByControllers(s: State, step: Step) {
    && Enabled(s, step)
    && match step
       case SyncReplicas(_, view) => exists r :: r in Current(s).locks && Owns(r, view)
       case GrabLock(_, view) => view.name in s.live && s.live[view.name] == view
       case WriteStatus(_) => true
       case _ => false
  }

  /** Of two records in the way, one is not the scale view's own. */
  lemma OtherInTheWay(s: State, r: Lock, l: Lock, m: Lock) returns (other: Lock)
    requires StuckIn(s.hist, s.live, l, m)
    ensures Recorded(s, other) && other != r && !OutOfTheWay(Current(s).components, other)
  {
    other := if r == l then m else l;
  }

  lemma GroupsAgree(hist: seq<RisingWave>, snap: nat, c: Component)
    requires SameGroups(hist) && snap < |hist|
    ensures hist[snap].components.Get(c) == hist[|hist| - 1].components.Get(c)
  {}

  lemma SyncStaysStuck(s: State, snap: nat, view: ScaleView, r: Lock, l: Lock, m: Lock)
    requires Inv(s) && StuckIn(s.hist, s.live, l, m) && snap < |s.hist| && view in s.versions
    requires Recorded(s, r) && Owns(r, view)
    ensures Enabled(s, SyncReplicas(snap, view)) && Apply(s, SyncReplicas(snap, view)) == s
  {
    var other := OtherInTheWay(s, r, l, m);
    GroupsAgree(s.hist, snap, view.targetRef.component);
    MidMoveBlocksOthers(s, snap, view, r, other);
  }

  /** Grabbing keeps every record but an outdated one of the scale view itself. */
  lemma GrabKeepsOthers(locks: seq<Lock>, view: ScaleView, l: Lock)
    requires l in locks && (Owns(l, view) ==> l.generation == view.generation) && Exclusive(locks)
    ensures match GrabOrUpdate(locks, view) case Ok((_, r)) => l in r case Err(_) => true
  {
    var j :| 0 <= j < |locks| && locks[j] == l;
    var i := IndexOf(locks, view);
    if i.Some? && locks[i.value].generation != view.generation && SplitOf(view).Some? {
      var r := locks[i.value := locks[i.value].(generation := view.generation, groupLocks := LockOf(view).groupLocks)];
      assert i.value != j && r[j] == l;
    }
  }

  /** The last version after a write that keeps the node groups and the two records. */
  ghost predicate Unmoved(hist: seq<RisingWave>, after: seq<RisingWave>, l: Lock, m: Lock) {
    && hist != [] && SameGroups(after) && after[|after| - 1].components == hist[|hist| - 1].components
    && l in after[|after| - 1].locks && m in after[|after| - 1].locks
  }

  lemma SwapKeepsGroups(hist: seq<RisingWave>, snap: nat, locks: seq<Lock>, l: Lock, m: Lock)
    requires SameGroups(hist) && snap < |hist| && l in hist[|hist| - 1].locks && m in hist[|hist| - 1].locks
    requires snap == |hist| - 1 ==> l in locks && m in locks
    ensures Unmoved(hist, CompareAndSwap(hist, snap, locks), l, m)
  {}

  lemma GrabKeepsGroups(uid: nat, hist: seq<RisingWave>, snap: nat, view: ScaleView, l: Lock, m: Lock)
    requires SameGroups(hist) && snap < |hist| && l in hist[|hist| - 1].locks && m in hist[|hist| - 1].locks
    requires Exclusive(hist[|hist| - 1].locks)
    requires (Owns(l, view) ==> l.generation == view.generation) && (Owns(m, view) ==> m.generation == view.generation)
    ensures Unmoved(hist, AfterGrab(uid, hist, snap, view), l, m)
  {
    if snap == |hist| - 1 {
      GrabKeepsOthers(hist[snap].locks, view, l);
      GrabKeepsOthers(hist[snap].locks, view, m);
    }
    match GrabOrUpdate(hist[snap].locks, view)
    case Ok((true, locks)) => SwapKeepsGroups(hist, snap, locks, l, m);
    case _ =>
  }

  lemma UnmovedStaysStuck(hist: seq<RisingWave>, live: map<string, ScaleView>, after: seq<RisingWave>, l: Lock, m: Lock)
    requires StuckIn(hist, live, l, m) && Unmoved(hist, after, l, m) && Exclusive(after[|after| - 1].locks)
    ensures StuckIn(after, live, l, m)
  {
    StandsStill(hist[|hist| - 1], after[|after| - 1], live, l);
    StandsStill(hist[|hist| - 1], after[|after| - 1], live, m);
  }

  lemma StandsStill(was: RisingWave, now: RisingWave, live: map<string, ScaleView>, l: Lock)
    requires Stands(was, live, l) && now.components == was.components && l in now.locks
    ensures Stands(now, live, l)
  {}

  /** A live scale view whose record is current does not rewrite it. */
  lemma LiveAgrees(o: RisingWave, live: map<string, ScaleView>, view: ScaleView, l: Lock)
    requires Stands(o, live, l) && view.name in live && live[view.name] == view
    ensures Owns(l, view) ==> l.generation == view.generation
  {}

  lemma GrabMeets(uid: nat, hist: seq<RisingWave>, live: map<string, ScaleView>, snap: nat, view: ScaleView, l: Lock,
                  m: Lock)
    requires StuckIn(hist, live, l, m) && snap < |hist| && view.name in live && live[view.name] == view
    ensures Unmoved(hist, AfterGrab(uid, hist, snap, view), l, m)
  {
    LiveAgrees(hist[|hist| - 1], live, view, l);
    LiveAgrees(hist[|hist| - 1], live, view, m);
    GrabKeepsGroups(uid, hist, snap, view, l, m);
  }

  lemma UnmovedStep(s: State, t: State, l: Lock, m: Lock)
    requires Stuck(s, l, m) && Inv(t) && t.live == s.live && Unmoved(s.hist, t.hist, l, m)
    ensures Stuck(t, l, m) && Current(t).components == Current(s).components
  {
    assert RecordsSound(t, Current(t));
    UnmovedStaysStuck(s.hist, s.live, t.hist, l, m);
  }

  lemma GrabStaysStuck(s: State, snap: nat, view: ScaleView, t: State, l: Lock, m: Lock)
    requires Stuck(s, l, m) && snap < |s.hist| && view.name in s.live && s.live[view.name] == view
    requires t == s.(hist := AfterGrab(s.uid, s.hist, snap, view)) && Inv(t)
    ensures Stuck(t, l, m) && Current(t).components == Current(s).components
  {
    GrabMeets(s.uid, s.hist, s.live, snap, view, l, m);
    UnmovedStep(s, t, l, m);
  }

  lemma StatusMeets(hist: seq<RisingWave>, live: map<string, ScaleView>, snap: nat, l: Lock, m: Lock)
    requires StuckIn(hist, live, l, m) && snap < |hist|
    ensures Unmoved(hist, CompareAndSwap(hist, snap, hist[snap].locks), l, m)
  {
    SwapKeepsGroups(hist, snap, hist[snap].locks, l, m);
  }

  lemma StatusStaysStuck(s: State, snap: nat, t: State, l: Lock, m: Lock)
    requires Stuck(s, l, m) && snap < |s.hist|
    requires t == s.(hist := CompareAndSwap(s.hist, snap, s.hist[snap].locks)) && Inv(t)
    ensures Stuck(t, l, m) && Current(t).components == Current(s).components
  {
    StatusMeets(s.hist, s.live, snap, l, m);
    UnmovedStep(s, t, l, m);
  }

  lemma StepStaysStuck(s: State, step: Step, t: State, l: Lock, m: Lock)
    requires Stuck(s, l, m) && ByControllers(s, step) && Leads(s, step, t)
    ensures Stuck(t, l, m) && Current(t).components == Current(s).components
  {
    LeadsKeepsInv(s, step, t);
    match step
    case SyncReplicas(snap, view) =>
      var r :| r in Current(s).locks && Owns(r, view);
      SyncStaysStuck(s, snap, view, r, l, m);
    case GrabLock(snap, view) => GrabStaysStuck(s, snap, view, t, l, m);
    case WriteStatus(snap) => StatusStaysStuck(s, snap, t, l, m);
  }

  /** However long the controllers run, in whatever order and from reads however old, no node group moves. */
  lemma StuckForGood(run: seq<State>, steps: seq<Step>, l: Lock, m: Lock, i: nat)
    requires |run| == |steps| + 1 && Stuck(run[0], l, m) && i < |run|
    requires forall k :: 0 <= k < |steps| ==> Leads(run[k], steps[k], run[k + 1]) && ByControllers(run[k], steps[k])
    ensures Stuck(run[i], l, m) && Current(run[i]).components == Current(run[0]).components
  {
    for k := 0 to i
      invariant Stuck(run[k], l, m) && Current(run[k]).components == Current(run[0]).components
    {
      StepStaysStuck(run[k], steps[k], run[k + 1], l, m);
    }
  }
}
