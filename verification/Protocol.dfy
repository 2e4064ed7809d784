/** The scale-view protocol as one transition system: the RisingWave object with its resource
    versions, the scale views, the controllers working from snapshots, and users writing specs. */
module Protocol {
  import opened Lex
  import opened Integers
  import opened Allocation
  import opened ScaleViewLocks
  import opened LockGuard
  import opened ScaleViewWebhooks

  datatype RisingWave = RisingWave(locks: seq<Lock>, components: Components)

  /** A release in progress. `alive` has one verdict for each record examined so far; `deadAtStart`
      is what was already gone when it began. */
  datatype Sweep = Sweep(snap: nat, alive: seq<bool>, deadAtStart: set<nat>)

  /** `hist[k]` is the RisingWave object at resource version k; the last one is current, and every
      one may still be in somebody's cache. `versions` has every scale-view version ever accepted,
      all of which may be read late; `dead` has the uids of deleted scale views. */
  datatype State = State(
    uid: nat, hist: seq<RisingWave>, live: map<string, ScaleView>, versions: set<ScaleView>,
    dead: set<nat>, sweeps: map<nat, Sweep>)

  datatype Step =
    | Create(sv: ScaleView, snap: nat)
    | Update(now: ScaleView)
    | Rescale(name: string, replicas: int)
    | Delete(name: string)
    | GrabLock(snap: nat, view: ScaleView)
    | SyncReplicas(snap: nat, view: ScaleView)
    | WriteSpec(components: Components)
    | WriteStatus(snap: nat)
    | StartSweep(id: nat, snap: nat)
    | ReadOwner(id: nat)
    | FinishSweep(id: nat)

  ghost predicate Sane(s: State) {
    s.hist != []
  }

  ghost function Current(s: State): RisingWave
    requires Sane(s)
  {
    s.hist[|s.hist| - 1]
  }

  // ---- What one call does to the object ----

  /** A status update succeeds only from the current resource version. */
  ghost function CompareAndSwap(hist: seq<RisingWave>, snap: nat, locks: seq<Lock>): seq<RisingWave>
    requires snap < |hist|
  {
    if snap == |hist| - 1 then hist + [hist[snap].(locks := locks)] else hist
  }

  ghost function AfterGrab(uid: nat, hist: seq<RisingWave>, snap: nat, view: ScaleView): seq<RisingWave>
    requires snap < |hist|
  {
    if view.targetRef.uid != Some(uid) then hist
    else match GrabOrUpdate(hist[snap].locks, view)
      case Ok((true, locks)) => CompareAndSwap(hist, snap, locks)
      case _ => hist
  }

  ghost function ApplyLocks(groups: seq<NodeGroup>, locks: seq<GroupLock>): (r: seq<NodeGroup>)
    ensures |r| == |groups|
    decreases locks
  {
    if locks == [] then groups
    else ApplyLocks(Write(groups, locks[0].name, locks[0].replicas), locks[1..])
  }

  /** A spec write is not a compare-and-swap: the guard alone decides. */
  ghost function WriteComponents(hist: seq<RisingWave>, components: Components): seq<RisingWave>
    requires hist != []
  {
    var cur := hist[|hist| - 1];
    if GuardAccepts(cur.components, components, cur.locks) then hist + [cur.(components := components)] else hist
  }

  /** The patch replaces the whole node-group list of the component by the snapshot's, edited. */
  ghost function AfterSync(uid: nat, hist: seq<RisingWave>, snap: nat, view: ScaleView): seq<RisingWave>
    requires snap < |hist|
  {
    var locks := hist[snap].locks;
    var i := IndexOf(locks, view);
    if view.targetRef.uid != Some(uid) || i.None? || locks[i.value].generation != view.generation then hist
    else
      var c := view.targetRef.component;
      var groups := ApplyLocks(hist[snap].components.Get(c), locks[i.value].groupLocks);
      if groups == hist[snap].components.Get(c) then hist
      else WriteComponents(hist, hist[|hist| - 1].components.With(c, groups))
  }

  ghost function Keep(locks: seq<Lock>, alive: seq<bool>): seq<Lock>
    requires |alive| <= |locks|
  {
    if alive == [] then locks
    else (if alive[0] then [locks[0]] else []) + Keep(locks[1..], alive[1..])
  }

  ghost function AfterSweep(hist: seq<RisingWave>, sweep: Sweep): seq<RisingWave>
    requires sweep.snap < |hist| && |sweep.alive| == |hist[sweep.snap].locks|
  {
    var locks := hist[sweep.snap].locks;
    if Keep(locks, sweep.alive) == locks then hist else CompareAndSwap(hist, sweep.snap, Keep(locks, sweep.alive))
  }

  ghost predicate OwnerLives(s: State, l: Lock) {
    l.name in s.live && s.live[l.name].uid == l.uid
  }

  // ---- Steps ----

  /** The API server never gives the same uid twice. */
  ghost predicate Fresh(s: State, uid: nat) {
    uid !in s.dead && forall v :: v in s.versions ==> v.uid != uid
  }

  ghost predicate CanCreate(s: State, sv: ScaleView, snap: nat) {
    && sv.name !in s.live && Fresh(s, sv.uid) && SchemaValid(sv) && ObjectAccepted(sv)
    && snap < |s.hist|
    && (sv.targetRef.uid == Some(s.uid) ==> Grab(s.hist[snap].locks, sv).Ok?)
  }

  ghost predicate CanUpdate(s: State, now: ScaleView) {
    && now.name in s.live && SchemaValid(now)
    && now.uid == s.live[now.name].uid && now.generation == s.live[now.name].generation + 1
    && UpdateAccepted(s.live[now.name], now)
  }

  ghost function Rescaled(was: ScaleView, replicas: int): ScaleView {
    was.(replicas := Some(replicas), generation := was.generation + 1)
  }

  ghost predicate Enabled(s: State, step: Step) {
    && Sane(s)
    && match step
       case Create(sv, snap) => CanCreate(s, sv, snap)
       case Update(now) => CanUpdate(s, now)
       case Rescale(name, replicas) => name in s.live && IsInt32(replicas)
       case Delete(name) => name in s.live
       case GrabLock(snap, view) => snap < |s.hist| && view in s.versions
       case SyncReplicas(snap, view) => snap < |s.hist| && view in s.versions
       case WriteSpec(_) => true
       case WriteStatus(snap) => snap < |s.hist|
       case StartSweep(id, snap) => id !in s.sweeps && snap < |s.hist|
       case ReadOwner(id) =>
         && id in s.sweeps && s.sweeps[id].snap < |s.hist|
         && |s.sweeps[id].alive| < |s.hist[s.sweeps[id].snap].locks|
       case FinishSweep(id) =>
         && id in s.sweeps && s.sweeps[id].snap < |s.hist|
         && |s.sweeps[id].alive| == |s.hist[s.sweeps[id].snap].locks|
  }

  ghost function Apply(s: State, step: Step): State
    requires Enabled(s, step)
  {
    match step
    case Create(sv, _) => s.(live := s.live[sv.name := sv], versions := s.versions + {sv})
    case Update(now) => s.(live := s.live[now.name := now], versions := s.versions + {now})
    case Rescale(name, replicas) =>
      var now := Rescaled(s.live[name], replicas);
      s.(live := s.live[name := now], versions := s.versions + {now})
    case Delete(name) => s.(live := s.live - {name}, dead := s.dead + {s.live[name].uid})
    case GrabLock(snap, view) => s.(hist := AfterGrab(s.uid, s.hist, snap, view))
    case SyncReplicas(snap, view) => s.(hist := AfterSync(s.uid, s.hist, snap, view))
    case WriteSpec(components) => s.(hist := WriteComponents(s.hist, components))
    case WriteStatus(snap) => s.(hist := CompareAndSwap(s.hist, snap, s.hist[snap].locks))
    case StartSweep(id, snap) => s.(sweeps := s.sweeps[id := Sweep(snap, [], s.dead)])
    case ReadOwner(id) =>
      var w := s.sweeps[id];
      s.(sweeps := s.sweeps[id := w.(alive := w.alive + [OwnerLives(s, s.hist[w.snap].locks[|w.alive|])])])
    case FinishSweep(id) => s.(hist := AfterSweep(s.hist, s.sweeps[id]), sweeps := s.sweeps - {id})
  }

  ghost predicate Init(s: State) {
    && |s.hist| == 1 && s.hist[0].locks == []
    && s.live == map[] && s.versions == {} && s.dead == {} && s.sweeps == map[]
  }

  ghost predicate Leads(s: State, step: Step, t: State) {
    Enabled(s, step) && t == Apply(s, step)
  }

  /** A run: any interleaving of enabled steps from an initial state. */
  ghost predicate IsRun(run: seq<State>, steps: seq<Step>) {
    && |run| == |steps| + 1 && Init(run[0])
    && forall i :: 0 <= i < |steps| ==> Leads(run[i], steps[i], run[i + 1])
  }

  // ---- The invariant ----

  /** Versions of one scale view differ only in what an update may change. */
  ghost predicate VersionsAgree(s: State) {
    && (forall v :: v in s.versions ==> SchemaValid(v) && ObjectAccepted(v))
    && (forall v, w :: v in s.versions && w in s.versions && v.uid == w.uid ==>
          v.name == w.name && v.targetRef == w.targetRef && GroupSet(v.scalePolicy) == GroupSet(w.scalePolicy))
    && (forall v, w :: v in s.versions && w in s.versions && v.uid == w.uid && v.generation == w.generation ==> v == w)
  }

  ghost predicate LiveAreVersions(s: State) {
    forall n :: n in s.live ==> s.live[n].name == n && s.live[n] in s.versions && s.live[n].uid !in s.dead
  }

  ghost predicate LiveAreNewest(s: State) {
    forall n, v :: n in s.live && v in s.versions && v.uid == s.live[n].uid ==> v.generation <= s.live[n].generation
  }

  ghost predicate VersionsLiveOrDead(s: State) {
    forall v :: v in s.versions ==> v.uid in s.dead || (v.name in s.live && s.live[v.name].uid == v.uid)
  }

  ghost predicate LiveAreLatest(s: State) {
    LiveAreVersions(s) && LiveAreNewest(s) && VersionsLiveOrDead(s)
  }

  /** A record is what `SplitReplicas` gives for some accepted version of its owner. */
  ghost predicate Backed(s: State, l: Lock) {
    exists v :: v in s.versions && IsLockOf(s.uid, v, l)
  }

  ghost predicate IsLockOf(uid: nat, v: ScaleView, l: Lock) {
    v.targetRef.uid == Some(uid) && SplitOf(v).Some? && l == LockOf(v)
  }

  ghost predicate RecordsSound(s: State, rw: RisingWave) {
    Exclusive(rw.locks) && forall l :: l in rw.locks ==> Backed(s, l)
  }

  /** What a sweep has seen stays true: the dead stay dead, and the kept were not dead at its start. */
  ghost predicate SweepSound(s: State, w: Sweep) {
    && w.snap < |s.hist| && |w.alive| <= |s.hist[w.snap].locks| && w.deadAtStart <= s.dead
    && forall j :: 0 <= j < |w.alive| ==>
         if w.alive[j] then s.hist[w.snap].locks[j].uid !in w.deadAtStart else s.hist[w.snap].locks[j].uid in s.dead
  }

  ghost predicate Inv(s: State) {
    && Sane(s) && VersionsAgree(s) && LiveAreLatest(s)
    && (forall k :: 0 <= k < |s.hist| ==> RecordsSound(s, s.hist[k]))
    && (forall id :: id in s.sweeps ==> SweepSound(s, s.sweeps[id]))
  }

  // ---- Steps on scale views ----

  lemma NewVersionKeepsRecords(s: State, t: State)
    requires s.versions <= t.versions && s.uid == t.uid && s.hist == t.hist
    requires forall k :: 0 <= k < |s.hist| ==> RecordsSound(s, s.hist[k])
    ensures forall k :: 0 <= k < |s.hist| ==> RecordsSound(t, t.hist[k])
  {
    forall k, l | 0 <= k < |s.hist| && l in s.hist[k].locks ensures Backed(t, l) {
      assert RecordsSound(s, s.hist[k]);
      assert Backed(s, l);
    }
  }

  lemma SameHistoryKeepsSweeps(s: State, t: State)
    requires s.hist == t.hist && s.sweeps == t.sweeps && s.dead <= t.dead
    requires forall id :: id in s.sweeps ==> SweepSound(s, s.sweeps[id])
    ensures forall id :: id in t.sweeps ==> SweepSound(t, t.sweeps[id])
  {
    forall id | id in t.sweeps ensures SweepSound(t, t.sweeps[id]) { assert SweepSound(s, s.sweeps[id]); }
  }

  lemma CreateAgrees(s: State, sv: ScaleView, t: State)
    requires VersionsAgree(s) && LiveAreLatest(s)
    requires sv.name !in s.live && Fresh(s, sv.uid) && SchemaValid(sv) && ObjectAccepted(sv)
    requires t == s.(live := s.live[sv.name := sv], versions := s.versions + {sv})
    ensures VersionsAgree(t)
  {}

  lemma CreateIsVersion(s: State, sv: ScaleView, t: State)
    requires VersionsAgree(s) && LiveAreLatest(s)
    requires sv.name !in s.live && Fresh(s, sv.uid) && SchemaValid(sv) && ObjectAccepted(sv)
    requires t == s.(live := s.live[sv.name := sv], versions := s.versions + {sv})
    ensures LiveAreVersions(t) && VersionsLiveOrDead(t)
  {}

  lemma CreateIsNewest(s: State, sv: ScaleView, t: State)
    requires VersionsAgree(s) && LiveAreLatest(s)
    requires sv.name !in s.live && Fresh(s, sv.uid) && SchemaValid(sv) && ObjectAccepted(sv)
    requires t == s.(live := s.live[sv.name := sv], versions := s.versions + {sv})
    ensures LiveAreNewest(t)
  {
    forall n, v | n in t.live && v in t.versions && v.uid == t.live[n].uid
      ensures v.generation <= t.live[n].generation
    {
      if n != sv.name { assert s.live[n] in s.versions; }
    }
  }

  lemma CreateKeepsInv(s: State, sv: ScaleView, snap: nat)
    requires Inv(s) && Enabled(s, Create(sv, snap))
    ensures Inv(Apply(s, Create(sv, snap)))
  {
    var t := Apply(s, Create(sv, snap));
    NewVersionKeepsRecords(s, t);
    SameHistoryKeepsSweeps(s, t);
    CreateAgrees(s, sv, t);
    CreateIsVersion(s, sv, t);
    CreateIsNewest(s, sv, t);
  }

  /** A new version of a live scale view that keeps its identity, target and groups. */
  ghost predicate NewVersionOf(was: ScaleView, now: ScaleView) {
    && now.name == was.name && now.uid == was.uid && now.generation == was.generation + 1
    && now.targetRef == was.targetRef && GroupSet(now.scalePolicy) == GroupSet(was.scalePolicy)
    && SchemaValid(now) && ObjectAccepted(now)
  }

  lemma NewVersionAgrees(s: State, now: ScaleView, t: State)
    requires VersionsAgree(s) && LiveAreLatest(s) && now.name in s.live && NewVersionOf(s.live[now.name], now)
    requires t == s.(live := s.live[now.name := now], versions := s.versions + {now})
    ensures VersionsAgree(t)
  {
    var was := s.live[now.name];
    forall v | v in s.versions && v.uid == now.uid
      ensures v.generation < now.generation && v.name == now.name && v.targetRef == now.targetRef
      ensures GroupSet(v.scalePolicy) == GroupSet(now.scalePolicy)
    {
      assert was in s.versions;
    }
  }

  lemma NewVersionIsLive(s: State, now: ScaleView, t: State)
    requires VersionsAgree(s) && LiveAreLatest(s) && now.name in s.live && NewVersionOf(s.live[now.name], now)
    requires t == s.(live := s.live[now.name := now], versions := s.versions + {now})
    ensures LiveAreVersions(t) && VersionsLiveOrDead(t)
  {
    assert s.live[now.name] in s.versions;
  }

  lemma NewVersionIsNewest(s: State, now: ScaleView, t: State)
    requires VersionsAgree(s) && LiveAreLatest(s) && now.name in s.live && NewVersionOf(s.live[now.name], now)
    requires t == s.(live := s.live[now.name := now], versions := s.versions + {now})
    ensures LiveAreNewest(t)
  {
    assert s.live[now.name] in s.versions;
    forall n, v | n in t.live && v in t.versions && v.uid == t.live[n].uid
      ensures v.generation <= t.live[n].generation
    {
      if n != now.name { assert s.live[n] in s.versions; }
    }
  }

  lemma NewVersionKeepsInv(s: State, now: ScaleView, t: State)
    requires Inv(s) && now.name in s.live && NewVersionOf(s.live[now.name], now)
    requires t == s.(live := s.live[now.name := now], versions := s.versions + {now})
    ensures Inv(t)
  {
    NewVersionKeepsRecords(s, t);
    SameHistoryKeepsSweeps(s, t);
    NewVersionAgrees(s, now, t);
    NewVersionIsLive(s, now, t);
    NewVersionIsNewest(s, now, t);
  }

  lemma UpdateKeepsInv(s: State, now: ScaleView)
    requires Inv(s) && Enabled(s, Update(now))
    ensures Inv(Apply(s, Update(now)))
  {
    UpdateFreezesGroups(s.live[now.name], now);
    NewVersionKeepsInv(s, now, Apply(s, Update(now)));
  }

  lemma RescaleKeepsInv(s: State, name: string, replicas: int)
    requires Inv(s) && Enabled(s, Rescale(name, replicas))
    ensures Inv(Apply(s, Rescale(name, replicas)))
  {
    NewVersionKeepsInv(s, Rescaled(s.live[name], replicas), Apply(s, Rescale(name, replicas)));
  }

  lemma DeleteKeepsLive(s: State, name: string, t: State)
    requires VersionsAgree(s) && LiveAreLatest(s) && name in s.live
    requires t == s.(live := s.live - {name}, dead := s.dead + {s.live[name].uid})
    ensures VersionsAgree(t) && LiveAreLatest(t)
  {
    var gone := s.live[name];
    forall n | n in t.live ensures t.live[n].name == n && t.live[n] in t.versions && t.live[n].uid !in t.dead {
      assert s.live[n] in s.versions && gone in s.versions && s.live[n].name != gone.name;
    }
    assert forall v :: v in s.versions && v.name == name && s.live[name].uid == v.uid ==> v.uid in t.dead;
  }

  lemma DeleteKeepsInv(s: State, name: string)
    requires Inv(s) && Enabled(s, Delete(name))
    ensures Inv(Apply(s, Delete(name)))
  {
    var t := Apply(s, Delete(name));
    NewVersionKeepsRecords(s, t);
    SameHistoryKeepsSweeps(s, t);
    DeleteKeepsLive(s, name, t);
  }

  // ---- Steps on the RisingWave object ----

  lemma AppendKeepsInv(s: State, t: State, rw: RisingWave)
    requires Inv(s) && RecordsSound(s, rw) && t == s.(hist := s.hist + [rw])
    ensures Inv(t)
  {
    forall k | 0 <= k < |t.hist| ensures RecordsSound(t, t.hist[k]) {
      var r := t.hist[k];
      assert RecordsSound(s, r);
      forall l | l in r.locks ensures Backed(t, l) { assert Backed(s, l); }
    }
  }

  lemma GrabIsSound(s: State, locks: seq<Lock>, view: ScaleView)
    requires Inv(s) && view in s.versions && view.targetRef.uid == Some(s.uid)
    requires Exclusive(locks) && forall l :: l in locks ==> Backed(s, l)
    requires Grab(locks, view).Ok?
    ensures Exclusive(Grab(locks, view).value) && forall l :: l in Grab(locks, view).value ==> Backed(s, l)
  {
    GrabKeepsExclusive(locks, view);
    assert IsLockOf(s.uid, view, LockOf(view));
  }

  lemma UpdateIsSound(s: State, locks: seq<Lock>, view: ScaleView, i: nat)
    requires Inv(s) && view in s.versions && view.targetRef.uid == Some(s.uid) && SplitOf(view).Some?
    requires Exclusive(locks) && forall l :: l in locks ==> Backed(s, l)
    requires i < |locks| && Owns(locks[i], view)
    ensures var l := locks[i].(generation := view.generation, groupLocks := LockOf(view).groupLocks);
      l == LockOf(view) && Exclusive(locks[i := l]) && forall m :: m in locks[i := l] ==> Backed(s, m)
  {
    assert locks[i] in locks;
    var v :| v in s.versions && IsLockOf(s.uid, v, locks[i]);
    LockGroups(v);
    LockGroups(view);
    assert v.targetRef == view.targetRef && GroupSet(v.scalePolicy) == GroupSet(view.scalePolicy);
    ReplaceKeepsExclusive(locks, i, LockOf(view));
    assert IsLockOf(s.uid, view, LockOf(view));
  }

  lemma GrabLockKeepsInv(s: State, snap: nat, view: ScaleView)
    requires Inv(s) && Enabled(s, GrabLock(snap, view))
    ensures Inv(Apply(s, GrabLock(snap, view)))
  {
    var t, locks := Apply(s, GrabLock(snap, view)), s.hist[snap].locks;
    assert RecordsSound(s, s.hist[snap]);
    if t.hist != s.hist {
      var after := GrabOrUpdate(locks, view).value.1;
      if IndexOf(locks, view).None? {
        GrabIsSound(s, locks, view);
      } else {
        UpdateIsSound(s, locks, view, IndexOf(locks, view).value);
      }
      AppendKeepsInv(s, t, s.hist[snap].(locks := after));
    } else {
      assert t == s;
    }
  }

  lemma WriteComponentsKeepsInv(s: State, components: Components, t: State)
    requires Inv(s) && t == s.(hist := WriteComponents(s.hist, components))
    ensures Inv(t)
  {
    assert RecordsSound(s, Current(s));
    if t.hist != s.hist {
      AppendKeepsInv(s, t, Current(s).(components := components));
    } else {
      assert t == s;
    }
  }

  lemma SyncKeepsInv(s: State, snap: nat, view: ScaleView)
    requires Inv(s) && Enabled(s, SyncReplicas(snap, view))
    ensures Inv(Apply(s, SyncReplicas(snap, view)))
  {
    var t := Apply(s, SyncReplicas(snap, view));
    if t.hist != s.hist {
      var i := IndexOf(s.hist[snap].locks, view).value;
      var c := view.targetRef.component;
      var groups := ApplyLocks(s.hist[snap].components.Get(c), s.hist[snap].locks[i].groupLocks);
      WriteComponentsKeepsInv(s, Current(s).components.With(c, groups), t);
    } else {
      assert t == s;
    }
  }

  /** While the record of a scale view is of the generation at hand, asking for the lock writes nothing. */
  lemma CurrentGrabIsIdle(uid: nat, hist: seq<RisingWave>, snap: nat, view: ScaleView, i: nat)
    requires snap < |hist| && i < |hist[snap].locks| && FirstRecord(hist[snap].locks, view, i)
    requires hist[snap].locks[i].generation == view.generation
    ensures AfterGrab(uid, hist, snap, view) == hist
  {
    CurrentRecordIsKept(hist[snap].locks, view, i);
  }

  /** A grab that goes through adds one version with a record of the generation at hand, and leaves the node groups;
      the next grab, from that version, writes nothing. */
  lemma GrabThenIdle(uid: nat, hist: seq<RisingWave>, snap: nat, view: ScaleView)
    requires snap < |hist| && AfterGrab(uid, hist, snap, view) != hist
    ensures view.targetRef.uid == Some(uid) && snap == |hist| - 1
    ensures var now := AfterGrab(uid, hist, snap, view);
            && |now| == |hist| + 1 && now[..|hist|] == hist && now[|hist|].components == hist[snap].components
            && (exists l :: l in now[|hist|].locks && l.name == view.name && l.uid == view.uid
                            && l.generation == view.generation)
            && AfterGrab(uid, now, |hist|, view) == now
  {
    var locks := hist[snap].locks;
    GrabIsIdempotent(locks, view);
    var after := GrabOrUpdate(locks, view).value.1;
    assert IndexOf(after, view).Some? && after[IndexOf(after, view).value] in after;
  }

  // ---- Sweeps ----

  /** The owner of a backed record lives exactly while its uid is not dead. */
  lemma OwnerVerdict(s: State, l: Lock)
    requires LiveAreLatest(s) && Backed(s, l)
    ensures OwnerLives(s, l) <==> l.uid !in s.dead
  {
    var v :| v in s.versions && IsLockOf(s.uid, v, l);
  }

  lemma NextVerdictIsSound(s: State, w: Sweep)
    requires LiveAreLatest(s) && SweepSound(s, w) && |w.alive| < |s.hist[w.snap].locks|
    requires Backed(s, s.hist[w.snap].locks[|w.alive|])
    ensures SweepSound(s, w.(alive := w.alive + [OwnerLives(s, s.hist[w.snap].locks[|w.alive|])]))
  {
    OwnerVerdict(s, s.hist[w.snap].locks[|w.alive|]);
  }

  lemma SweepsReplaced(s: State, id: nat, w: Sweep)
    requires Inv(s) && SweepSound(s, w)
    ensures Inv(s.(sweeps := s.sweeps[id := w]))
  {
    var t := s.(sweeps := s.sweeps[id := w]);
    NewVersionKeepsRecords(s, t);
    forall d | d in t.sweeps ensures SweepSound(t, t.sweeps[d]) {
      if d != id { assert SweepSound(s, s.sweeps[d]); }
    }
  }

  lemma ReadOwnerKeepsInv(s: State, id: nat)
    requires Inv(s) && Enabled(s, ReadOwner(id))
    ensures Inv(Apply(s, ReadOwner(id)))
  {
    var w := s.sweeps[id];
    var l := s.hist[w.snap].locks[|w.alive|];
    assert SweepSound(s, w) && RecordsSound(s, s.hist[w.snap]);
    assert l in s.hist[w.snap].locks;
    NextVerdictIsSound(s, w);
    SweepsReplaced(s, id, w.(alive := w.alive + [OwnerLives(s, l)]));
  }

  lemma {:induction false} KeepIsSubsequence(locks: seq<Lock>, alive: seq<bool>)
    requires |alive| <= |locks|
    ensures Subsequence(Keep(locks, alive), locks)
  {
    if alive == [] {
      SubsequenceRefl(locks);
    } else {
      KeepIsSubsequence(locks[1..], alive[1..]);
      var rest := Keep(locks[1..], alive[1..]);
      assert [] + rest == rest && ([locks[0]] + rest)[1..] == rest;
    }
  }

  lemma FinishSweepKeepsInv(s: State, id: nat)
    requires Inv(s) && Enabled(s, FinishSweep(id))
    ensures Inv(Apply(s, FinishSweep(id)))
  {
    var t, w := Apply(s, FinishSweep(id)), s.sweeps[id];
    var locks := s.hist[w.snap].locks;
    assert RecordsSound(s, s.hist[w.snap]);
    var u := s.(sweeps := s.sweeps - {id});
    NewVersionKeepsRecords(s, u);
    assert Inv(u) by {
      forall d | d in u.sweeps ensures SweepSound(u, u.sweeps[d]) { assert SweepSound(s, s.sweeps[d]); }
    }
    if t.hist != s.hist {
      KeepIsSubsequence(locks, w.alive);
      SubsequenceKeepsExclusive(Keep(locks, w.alive), locks);
      forall l | l in Keep(locks, w.alive) ensures Backed(u, l) {
        SubsequenceMembers(Keep(locks, w.alive), locks, l);
        assert Backed(s, l);
      }
      AppendKeepsInv(u, t, s.hist[w.snap].(locks := Keep(locks, w.alive)));
    } else {
      assert t == u;
    }
  }

  lemma OtherStepsKeepInv(s: State, step: Step)
    requires Inv(s) && Enabled(s, step) && (step.WriteStatus? || step.StartSweep?)
    ensures Inv(Apply(s, step))
  {
    var t := Apply(s, step);
    NewVersionKeepsRecords(s, s);
    match step
    case WriteStatus(snap) =>
      assert RecordsSound(s, s.hist[snap]);
      if t.hist != s.hist { AppendKeepsInv(s, t, s.hist[snap]); } else { assert t == s; }
    case StartSweep(id, snap) =>
      NewVersionKeepsRecords(s, t);
      forall d | d in t.sweeps ensures SweepSound(t, t.sweeps[d]) {
        if d != id { assert SweepSound(s, s.sweeps[d]); }
      }
  }

  /** Every step keeps the invariant. */
  lemma StepKeepsInv(s: State, step: Step)
    requires Inv(s) && Enabled(s, step)
    ensures Inv(Apply(s, step))
  {
    match step
    case Create(sv, snap) => CreateKeepsInv(s, sv, snap);
    case Update(now) => UpdateKeepsInv(s, now);
    case Rescale(name, replicas) => RescaleKeepsInv(s, name, replicas);
    case Delete(name) => DeleteKeepsInv(s, name);
    case GrabLock(snap, view) => GrabLockKeepsInv(s, snap, view);
    case SyncReplicas(snap, view) => SyncKeepsInv(s, snap, view);
    case WriteSpec(components) => WriteComponentsKeepsInv(s, components, Apply(s, step));
    case WriteStatus(_) => OtherStepsKeepInv(s, step);
    case StartSweep(_, _) => OtherStepsKeepInv(s, step);
    case ReadOwner(id) => ReadOwnerKeepsInv(s, id);
    case FinishSweep(id) => FinishSweepKeepsInv(s, id);
  }

  // ---- Safety over whole runs ----

  lemma LeadsKeepsInv(s: State, step: Step, t: State)
    requires Inv(s) && Leads(s, step, t)
    ensures Inv(t)
  {
    StepKeepsInv(s, step);
  }

  lemma InvOverRuns(run: seq<State>, steps: seq<Step>, i: nat)
    requires IsRun(run, steps) && i < |run|
    ensures Inv(run[i])
  {
    InitIsOk(run[0]);
    for k := 0 to i
      invariant Inv(run[k])
    {
      LeadsKeepsInv(run[k], steps[k], run[k + 1]);
    }
  }

  lemma InitIsOk(s: State)
    requires Init(s)
    ensures Inv(s)
  {}

  /** Mutual exclusion: at every resource version of every run, record names are distinct and no
      group of a component is held by two records. */
  lemma MutualExclusion(run: seq<State>, steps: seq<Step>, i: nat, k: nat)
    requires IsRun(run, steps) && i < |run| && k < |run[i].hist|
    ensures Exclusive(run[i].hist[k].locks)
  {
    InvOverRuns(run, steps, i);
    assert RecordsSound(run[i], run[i].hist[k]);
  }

  /** Every record of every run carries the split of an accepted version of its owner, hence that
      version's total exactly if it is within reach, and never runs ahead of the live owner. */
  lemma RecordsAgreeWithOwners(run: seq<State>, steps: seq<Step>, i: nat, k: nat, l: Lock)
    requires IsRun(run, steps) && i < |run| && k < |run[i].hist| && l in run[i].hist[k].locks
    ensures exists v :: v in run[i].versions && IsLockOf(run[i].uid, v, l)
                        && (LockedTotal(l.groupLocks) == TotalOf(v) <==> InReach(v))
                        && (NonNegativeLimits(v.scalePolicy) ==> InReach(v))
    ensures forall n :: n in run[i].live && run[i].live[n].uid == l.uid ==>
              n == l.name && l.generation <= run[i].live[n].generation
  {
    var s := run[i];
    InvOverRuns(run, steps, i);
    assert RecordsSound(s, s.hist[k]);
    var v :| v in s.versions && IsLockOf(s.uid, v, l);
    LockCarriesTotal(v);
    AcceptedNeverPanics(v);
    assert IsLockOf(s.uid, v, l) && (LockedTotal(l.groupLocks) == TotalOf(v) <==> InReach(v));
    forall n | n in s.live && s.live[n].uid == l.uid ensures n == l.name && l.generation <= s.live[n].generation {
      assert s.live[n] in s.versions;
    }
  }

  // ---- Replicas follow the locks ----

  ghost function ReadTotal(groups: seq<NodeGroup>, locks: seq<GroupLock>): int {
    if locks == [] then 0 else OldValue(groups, locks[0]) + ReadTotal(groups, locks[1..])
  }

  ghost predicate Held(components: Components, l: Lock) {
    forall i :: 0 <= i < |l.groupLocks| ==> AtLock(components.Get(l.component), l.groupLocks[i])
  }

  lemma {:induction false} HeldTotal(groups: seq<NodeGroup>, locks: seq<GroupLock>)
    requires forall i :: 0 <= i < |locks| ==> AtLock(groups, locks[i])
    ensures ReadTotal(groups, locks) == LockedTotal(locks)
  {
    if locks != [] {
      assert AtLock(groups, locks[0]);
      forall i | 0 <= i < |locks[1..]| ensures AtLock(groups, locks[1..][i]) { assert AtLock(groups, locks[i + 1]); }
      HeldTotal(groups, locks[1..]);
    }
  }

  lemma {:induction false} ApplyLeavesOthers(groups: seq<NodeGroup>, locks: seq<GroupLock>, name: string)
    requires forall i :: 0 <= i < |locks| ==> locks[i].name != name
    ensures Read(ApplyLocks(groups, locks), name) == Read(groups, name)
    decreases locks
  {
    if locks != [] {
      ReadAfterWrite(groups, locks[0].name, locks[0].replicas, name);
      ApplyLeavesOthers(Write(groups, locks[0].name, locks[0].replicas), locks[1..], name);
    }
  }

  lemma {:induction false} ApplyReachesLocks(groups: seq<NodeGroup>, locks: seq<GroupLock>, i: nat)
    requires i < |locks| && forall j, k :: 0 <= j < k < |locks| ==> locks[j].name != locks[k].name
    ensures var r := Read(ApplyLocks(groups, locks), locks[i].name);
            r == if Read(groups, locks[i].name).Some? then Some(locks[i].replicas) else None
    decreases locks
  {
    var next := Write(groups, locks[0].name, locks[0].replicas);
    ReadAfterWrite(groups, locks[0].name, locks[0].replicas, locks[i].name);
    if i == 0 {
      ApplyLeavesOthers(next, locks[1..], locks[0].name);
    } else {
      ApplyReachesLocks(next, locks[1..], i - 1);
    }
  }

  lemma LockNamesDistinct(v: ScaleView)
    requires SchemaValid(v) && SplitOf(v).Some?
    ensures var locks := LockOf(v).groupLocks;
            forall j, k :: 0 <= j < k < |locks| ==> locks[j].name != locks[k].name
  {}

  /** The record a controller works from is the split of the very version it holds. */
  lemma RecordOfView(s: State, locks: seq<Lock>, view: ScaleView, i: nat)
    requires VersionsAgree(s) && view in s.versions && i < |locks| && Owns(locks[i], view)
    requires locks[i].generation == view.generation && Backed(s, locks[i])
    ensures SplitOf(view).Some? && locks[i] == LockOf(view)
  {
    var v :| v in s.versions && IsLockOf(s.uid, v, locks[i]);
    assert v == view;
  }

  ghost predicate Recorded(s: State, l: Lock) {
    Sane(s) && l in Current(s).locks
  }

  ghost predicate HeldIn(s: State, l: Lock) {
    Sane(s) && Held(Current(s).components, l)
  }

  lemma GuardedRecord(s: State, components: Components, l: Lock)
    requires Recorded(s, l) && GuardAccepts(Current(s).components, components, Current(s).locks)
    ensures Accepts(Current(s).components.Get(l.component), components.Get(l.component), l.groupLocks)
  {
    var i :| 0 <= i < |Current(s).locks| && Current(s).locks[i] == l;
  }

  lemma SnapshotRecord(s: State, o: RisingWave, view: ScaleView, i: nat)
    requires VersionsAgree(s) && RecordsSound(s, o) && view in s.versions
    requires IndexOf(o.locks, view) == Some(i) && o.locks[i].generation == view.generation
    ensures SplitOf(view).Some? && o.locks[i] == LockOf(view)
  {
    assert o.locks[i] in o.locks;
    RecordOfView(s, o.locks, view, i);
  }

  /** The list that a patch writes, and that the guard let it. */
  ghost predicate Patched(hist: seq<RisingWave>, groups: seq<NodeGroup>, c: Component, after: seq<RisingWave>) {
    && hist != [] && after != [] && after[|after| - 1].components.Get(c) == groups
    && GuardAccepts(hist[|hist| - 1].components, after[|after| - 1].components, hist[|hist| - 1].locks)
  }

  lemma AfterSyncWrote(uid: nat, hist: seq<RisingWave>, snap: nat, view: ScaleView, after: seq<RisingWave>)
    returns (i: nat)
    requires snap < |hist| && after == AfterSync(uid, hist, snap, view) != hist
    ensures IndexOf(hist[snap].locks, view) == Some(i) && hist[snap].locks[i].generation == view.generation
    ensures var c := view.targetRef.component;
            Patched(hist, ApplyLocks(hist[snap].components.Get(c), hist[snap].locks[i].groupLocks), c, after)
  {
    i := IndexOf(hist[snap].locks, view).value;
  }

  lemma SyncStep(s: State, snap: nat, view: ScaleView)
    requires Enabled(s, SyncReplicas(snap, view))
    ensures view in s.versions && snap < |s.hist|
    ensures Apply(s, SyncReplicas(snap, view)) == s.(hist := AfterSync(s.uid, s.hist, snap, view))
  {}

  lemma PatchedByLock(s: State, snap: nat, view: ScaleView, i: nat, c: Component, after: seq<RisingWave>)
    requires VersionsAgree(s) && view in s.versions && snap < |s.hist| && RecordsSound(s, s.hist[snap])
    requires IndexOf(s.hist[snap].locks, view) == Some(i) && s.hist[snap].locks[i].generation == view.generation
    requires Patched(s.hist, ApplyLocks(s.hist[snap].components.Get(c), s.hist[snap].locks[i].groupLocks), c, after)
    ensures SplitOf(view).Some?
    ensures Patched(s.hist, ApplyLocks(s.hist[snap].components.Get(c), LockOf(view).groupLocks), c, after)
  {
    SnapshotRecord(s, s.hist[snap], view, i);
  }

  lemma SyncWroteLocks(s: State, snap: nat, view: ScaleView, after: seq<RisingWave>)
    requires VersionsAgree(s) && view in s.versions && snap < |s.hist| && RecordsSound(s, s.hist[snap])
    requires after == AfterSync(s.uid, s.hist, snap, view) != s.hist
    ensures SplitOf(view).Some?
    ensures var c := view.targetRef.component;
            Patched(s.hist, ApplyLocks(s.hist[snap].components.Get(c), LockOf(view).groupLocks), c, after)
  {
    var i := AfterSyncWrote(s.uid, s.hist, snap, view, after);
    PatchedByLock(s, snap, view, i, view.targetRef.component, after);
  }

  /** What a sync that gets through has written, and that the guard let it. */
  lemma SyncWrote(s: State, snap: nat, view: ScaleView)
    requires Inv(s) && Enabled(s, SyncReplicas(snap, view)) && Apply(s, SyncReplicas(snap, view)) != s
    ensures SplitOf(view).Some?
    ensures var t, c := Apply(s, SyncReplicas(snap, view)), view.targetRef.component;
      Sane(t) && Patched(s.hist, ApplyLocks(s.hist[snap].components.Get(c), LockOf(view).groupLocks), c, t.hist)
  {
    SyncStep(s, snap, view);
    SyncWroteLocks(s, snap, view, AfterSync(s.uid, s.hist, snap, view));
  }

  lemma WriteKeepsHeld(s: State, components: Components, l: Lock)
    requires Recorded(s, l) && HeldIn(s, l)
    ensures HeldIn(s.(hist := WriteComponents(s.hist, components)), l)
  {
    if GuardAccepts(Current(s).components, components, Current(s).locks) {
      GuardedRecord(s, components, l);
      HeldStaysHeld(Current(s).components.Get(l.component), components.Get(l.component), l.groupLocks);
    }
  }

  lemma SyncIsWrite(s: State, snap: nat, view: ScaleView)
    requires Enabled(s, SyncReplicas(snap, view)) && Apply(s, SyncReplicas(snap, view)) != s
    ensures exists c :: Apply(s, SyncReplicas(snap, view)) == s.(hist := WriteComponents(s.hist, c))
  {
    var i := IndexOf(s.hist[snap].locks, view).value;
    var c := view.targetRef.component;
    var groups := ApplyLocks(s.hist[snap].components.Get(c), s.hist[snap].locks[i].groupLocks);
    assert Apply(s, SyncReplicas(snap, view))
        == s.(hist := WriteComponents(s.hist, Current(s).components.With(c, groups)));
  }

  /** One step keeps held groups held, whoever writes and however stale the write is. */
  lemma StepKeepsHeld(s: State, step: Step, l: Lock)
    requires Enabled(s, step) && Recorded(s, l) && HeldIn(s, l)
    ensures HeldIn(Apply(s, step), l)
  {
    match step
    case WriteSpec(components) => WriteKeepsHeld(s, components, l);
    case SyncReplicas(snap, view) =>
      if Apply(s, step) != s {
        SyncIsWrite(s, snap, view);
        var c :| Apply(s, step) == s.(hist := WriteComponents(s.hist, c));
        WriteKeepsHeld(s, c, l);
      }
    case _ => OthersKeepComponents(s, step);
  }

  lemma OthersKeepComponents(s: State, step: Step)
    requires Enabled(s, step) && Sane(s) && !step.WriteSpec? && !step.SyncReplicas?
    ensures Sane(Apply(s, step)) && Current(Apply(s, step)).components == Current(s).components
  {}

  /** Locked replicas are stable: from a state where a record's groups are all at their values, they
      stay there for as long as that record is neither rewritten nor released. */
  lemma HeldOverRuns(run: seq<State>, steps: seq<Step>, i: nat, j: nat, l: Lock)
    requires IsRun(run, steps) && i <= j < |run|
    requires forall k :: i <= k < j ==> Recorded(run[k], l)
    requires HeldIn(run[i], l)
    ensures HeldIn(run[j], l)
  {
    for k := i to j
      invariant HeldIn(run[k], l)
    {
      LeadsKeepsHeld(run[k], steps[k], run[k + 1], l);
    }
  }

  lemma LeadsKeepsHeld(s: State, step: Step, t: State, l: Lock)
    requires Leads(s, step, t) && Recorded(s, l) && HeldIn(s, l)
    ensures HeldIn(t, l)
  {
    StepKeepsHeld(s, step, l);
  }

  // ---- Release ----

  lemma {:induction false} KeepMembers(locks: seq<Lock>, alive: seq<bool>, j: nat)
    requires |alive| == |locks| && j < |locks|
    requires forall a, b :: 0 <= a < b < |locks| ==> locks[a].name != locks[b].name
    ensures locks[j] in Keep(locks, alive) <==> alive[j]
  {
    KeepIsSubsequence(locks[1..], alive[1..]);
    if j == 0 {
      forall l | l in Keep(locks[1..], alive[1..]) ensures l != locks[0] {
        SubsequenceMembers(Keep(locks[1..], alive[1..]), locks[1..], l);
        var b :| 0 <= b < |locks[1..]| && locks[1..][b] == l;
        assert locks[0].name != locks[b + 1].name;
      }
    } else {
      KeepMembers(locks[1..], alive[1..], j - 1);
    }
  }

  /** A sweep that commits removes every record whose owner was gone when it began and only records
      whose owner is gone now. Nothing else is touched and no record taken meanwhile is lost, since a
      write from an old resource version changes nothing. */
  lemma SweepIsSafe(s: State, id: nat, l: Lock)
    requires Inv(s) && Enabled(s, FinishSweep(id))
    ensures var t := Apply(s, FinishSweep(id));
      && Sane(t) && Current(t).components == Current(s).components
      && (l in Current(t).locks ==> l in Current(s).locks)
      && (l in Current(s).locks && l !in Current(t).locks ==> l.uid in s.dead)
      && (s.sweeps[id].snap == |s.hist| - 1 && l.uid in s.sweeps[id].deadAtStart ==> l !in Current(t).locks)
  {
    SweepStep(s, id);
    SweptLocks(s, s.sweeps[id], Current(Apply(s, FinishSweep(id))).locks, l);
  }

  lemma SweptLocks(s: State, w: Sweep, after: seq<Lock>, l: Lock)
    requires Inv(s) && SweepSound(s, w) && w.snap < |s.hist| && |w.alive| == |s.hist[w.snap].locks|
    requires after == if w.snap == |s.hist| - 1 then Keep(s.hist[w.snap].locks, w.alive) else Current(s).locks
    ensures l in after ==> l in Current(s).locks
    ensures l in Current(s).locks && l !in after ==> l.uid in s.dead
    ensures w.snap == |s.hist| - 1 && l.uid in w.deadAtStart ==> l !in after
  {
    assert RecordsSound(s, s.hist[w.snap]);
    KeptBySweep(s, w, l);
  }

  lemma SweepStep(s: State, id: nat)
    requires Enabled(s, FinishSweep(id)) && Sane(s)
    ensures var t, w := Apply(s, FinishSweep(id)), s.sweeps[id];
      && Sane(t) && Current(t).components == Current(s).components
      && Current(t).locks == if w.snap == |s.hist| - 1 then Keep(s.hist[w.snap].locks, w.alive) else Current(s).locks
  {}

  lemma KeptBySweep(s: State, w: Sweep, l: Lock)
    requires SweepSound(s, w) && |w.alive| == |s.hist[w.snap].locks| && Exclusive(s.hist[w.snap].locks)
    ensures var locks := s.hist[w.snap].locks;
      && (l in Keep(locks, w.alive) ==> l in locks && l.uid !in w.deadAtStart)
      && (l in locks && l !in Keep(locks, w.alive) ==> l.uid in s.dead)
  {
    var locks := s.hist[w.snap].locks;
    KeepIsSubsequence(locks, w.alive);
    if l in Keep(locks, w.alive) { SubsequenceMembers(Keep(locks, w.alive), locks, l); }
    if j :| 0 <= j < |locks| && locks[j] == l {
      KeepMembers(locks, w.alive, j);
    }
  }

  /** When nothing is deleted during the sweep, it keeps exactly the records whose owner lives. */
  lemma SweepIsExact(s: State, id: nat, l: Lock)
    requires Inv(s) && Enabled(s, FinishSweep(id))
    requires s.sweeps[id].snap == |s.hist| - 1 && s.sweeps[id].deadAtStart == s.dead
    requires l in Current(s).locks
    ensures l in Current(Apply(s, FinishSweep(id))).locks <==> OwnerLives(s, l)
  {
    SweepIsSafe(s, id, l);
    assert RecordsSound(s, Current(s));
    var v :| v in s.versions && IsLockOf(s.uid, v, l);
    if OwnerLives(s, l) { assert s.live[l.name].uid !in s.dead; }
  }
}
