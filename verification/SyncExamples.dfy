/** Two runs of the protocol: one that ends with two scale views blocking each other, and one in which
    a stale patch takes back a user's edit. */
module SyncExamples {
  import opened Lex
  import opened Integers
  import opened Allocation
  import opened SignedAllocation
  import opened ScaleViewLocks
  import opened LockGuard
  import opened ScaleViewWebhooks
  import opened Protocol
  import opened SyncLaws
  import opened StuckSyncs

  // ---- A scale view over two groups without limits ----

  function Policies(x: string, y: string): seq<ScalePolicy> {
    [ScalePolicy(x, 0, None), ScalePolicy(y, 0, None)]
  }

  lemma TwoGroupSplit(x: string, y: string, total: int)
    requires Less(x, y) && 0 <= total <= MAX_INT32
    ensures SplitSigned(Policies(x, y), total) == Some(map[x := total - total / 2, y := total / 2])
  {
    var ps, m := Policies(x, y), map[x := total - total / 2, y := total / 2];
    LessIrreflexive(x);
    LessAsymmetric(x, y);
    LessIrreflexive(y);
    TwoGroups(x, y);
    ListsOfTwo(ps[0], ps[1], m);
    assert IsSplit(ps, total, m);
    SplitIsExact(ps, total, m);
    SplitSignedIsSplit(ps, total);
  }

  lemma ListsOfTwo(p: ScalePolicy, q: ScalePolicy, m: map<string, int>)
    requires p.group in m && q.group in m
    ensures GroupSet([p, q]) <= m.Keys && Total([p, q], m) == m[p.group] + m[q.group]
    ensures GroupLocksFor([p, q], m) == [GroupLock(p.group, m[p.group]), GroupLock(q.group, m[q.group])]
  {
    assert [p, q][1..] == [q] && [q][1..] == [];
    assert GroupSet([]) == {} && GroupSet([q]) == {q.group} && GroupSet([p, q]) == {p.group, q.group} by {
      assert q in [q] && p in [p, q] && q in [p, q];
    }
    assert Total([q], m) == m[q.group] && Total([p, q], m) == m[p.group] + Total([q], m);
    assert GroupLocksFor([q], m) == [GroupLock(q.group, m[q.group])];
  }

  lemma TwoGroups(x: string, y: string)
    requires x != y
    ensures GroupSet(Policies(x, y)) == {x, y} && WellFormed(Policies(x, y))
  {
    var ps := Policies(x, y);
    assert ps[0] in ps && ps[1] in ps;
  }

  function View(name: string, uid: nat, generation: int, x: string, y: string, replicas: int): ScaleView {
    ScaleView(name, uid, generation, TargetRef("rw", Frontend, Some(0)), "", Some(replicas), Policies(x, y))
  }

  function Record(name: string, uid: nat, generation: int, x: string, y: string, replicas: int): Lock {
    Lock(name, uid, Frontend, generation, [GroupLock(x, replicas - replicas / 2), GroupLock(y, replicas / 2)])
  }

  lemma ViewIsAccepted(name: string, uid: nat, generation: int, x: string, y: string, replicas: int)
    requires Less(x, y) && 0 <= replicas <= MAX_INT32
    ensures SchemaValid(View(name, uid, generation, x, y, replicas))
    ensures ObjectAccepted(View(name, uid, generation, x, y, replicas))
  {
    LessIrreflexive(x);
    TwoGroups(x, y);
    var ps := Policies(x, y);
    assert ps[0] in ps && ps[0].maxReplicas.None?;
  }

  lemma LockWith(v: ScaleView, m: map<string, int>)
    requires SplitOf(v) == Some(m) && GroupSet(v.scalePolicy) <= m.Keys
    ensures LockOf(v) == Lock(v.name, v.uid, v.targetRef.component, v.generation, GroupLocksFor(v.scalePolicy, m))
  {}

  lemma RecordOfView(name: string, uid: nat, generation: int, x: string, y: string, replicas: int)
    requires Less(x, y) && 0 <= replicas <= MAX_INT32
    ensures var v := View(name, uid, generation, x, y, replicas);
            SplitOf(v).Some? && LockOf(v) == Record(name, uid, generation, x, y, replicas)
  {
    var m := map[x := replicas - replicas / 2, y := replicas / 2];
    LessIrreflexive(x);
    TwoGroupSplit(x, y, replicas);
    ListsOfTwo(ScalePolicy(x, 0, None), ScalePolicy(y, 0, None), m);
    LockWith(View(name, uid, generation, x, y, replicas), m);
  }

  // ---- Building a run ----

  ghost predicate EndsIn(run: seq<State>, steps: seq<Step>, s: State) {
    IsRun(run, steps) && run[|steps|] == s
  }

  ghost predicate Reachable(s: State) {
    exists run, steps :: EndsIn(run, steps, s)
  }

  lemma Next(s: State, step: Step, next: State)
    requires Reachable(s) && Enabled(s, step) && Apply(s, step) == next
    ensures Reachable(next)
  {
    var run, steps :| EndsIn(run, steps, s);
    Extended(run, steps, step, next);
    assert EndsIn(run + [next], steps + [step], next);
  }

  lemma Extended(run: seq<State>, steps: seq<Step>, step: Step, next: State)
    requires IsRun(run, steps) && Enabled(run[|steps|], step) && Apply(run[|steps|], step) == next
    ensures IsRun(run + [next], steps + [step])
  {}

  lemma ReachableInv(s: State)
    requires Reachable(s)
    ensures Inv(s)
  {
    var run, steps :| EndsIn(run, steps, s);
    InvOverRuns(run, steps, |steps|);
  }

  function Start(components: Components): State {
    State(0, [RisingWave([], components)], map[], {}, {}, map[])
  }

  lemma StartIsReachable(components: Components)
    ensures Reachable(Start(components))
  {
    assert EndsIn([Start(components)], [], Start(components));
  }

  lemma CreateReachable(s: State, name: string, uid: nat, x: string, y: string, replicas: int)
    requires Reachable(s) && s.uid == 0 && |s.hist| > 0 && s.hist[0].locks == [] && name !in s.live && Fresh(s, uid)
    requires Less(x, y) && 0 <= replicas <= MAX_INT32
    ensures var v := View(name, uid, 1, x, y, replicas);
            Reachable(s.(live := s.live[name := v], versions := s.versions + {v}))
  {
    ViewIsAccepted(name, uid, 1, x, y, replicas);
    RecordOfView(name, uid, 1, x, y, replicas);
    var v := View(name, uid, 1, x, y, replicas);
    Next(s, Create(v, 0), s.(live := s.live[name := v], versions := s.versions + {v}));
  }

  lemma GrabReachable(s: State, v: ScaleView, locks: seq<Lock>)
    requires Reachable(s) && s.hist != [] && v in s.versions && v.targetRef.uid == Some(s.uid)
    requires GrabOrUpdate(Current(s).locks, v) == Ok((true, locks))
    ensures Reachable(s.(hist := s.hist + [Current(s).(locks := locks)]))
  {
    Next(s, GrabLock(|s.hist| - 1, v), s.(hist := s.hist + [Current(s).(locks := locks)]));
  }

  lemma RescaleReachable(s: State, v: ScaleView, replicas: int)
    requires Reachable(s) && s.hist != [] && v.name in s.live && s.live[v.name] == v && 0 <= replicas <= MAX_INT32
    ensures var now := Rescaled(v, replicas);
            Reachable(s.(live := s.live[v.name := now], versions := s.versions + {now}))
  {
    var now := Rescaled(v, replicas);
    Next(s, Rescale(v.name, replicas), s.(live := s.live[v.name := now], versions := s.versions + {now}));
  }

  lemma WriteReachable(s: State, components: Components)
    requires Reachable(s) && s.hist != [] && GuardAccepts(Current(s).components, components, Current(s).locks)
    ensures Reachable(s.(hist := s.hist + [Current(s).(components := components)]))
  {
    Next(s, WriteSpec(components), s.(hist := s.hist + [Current(s).(components := components)]));
  }

  // ---- Two scale views that block each other ----

  /** Frontend groups at the split of 2k - 1 over a, b and over c, d. */
  function FourGroups(k: int): Components {
    Components([], [NodeGroup("a", k), NodeGroup("b", k - 1), NodeGroup("c", k), NodeGroup("d", k - 1)], [], [])
  }

  predicate InRange(k: int) {
    1 <= k && 2 * k <= MAX_INT32
  }

  /** The view is live, its record is current, its groups are not at their values, and a sync does nothing. */
  ghost predicate CannotSync(s: State, v: ScaleView, i: nat) {
    && ReadyToSync(s, v, i) && v.name in s.live && s.live[v.name] == v
    && SplitOf(v).Some? && !HeldIn(s, LockOf(v)) && SyncNow(s, v) == s
  }

  ghost predicate Blocked(s: State, v: ScaleView, w: ScaleView) {
    CannotSync(s, v, 0) && CannotSync(s, w, 1)
  }

  lemma Names()
    ensures Less("a", "b") && Less("c", "d")
  {}

  function A(generation: int, replicas: int): ScaleView { View("A", 1, generation, "a", "b", replicas) }

  function B(generation: int, replicas: int): ScaleView { View("B", 2, generation, "c", "d", replicas) }

  function RecordA(generation: int, replicas: int): Lock { Record("A", 1, generation, "a", "b", replicas) }

  function RecordB(generation: int, replicas: int): Lock { Record("B", 2, generation, "c", "d", replicas) }

  function Object(k: int, locks: seq<Lock>): RisingWave { RisingWave(locks, FourGroups(k)) }

  function AfterCreates(k: int): State {
    Start(FourGroups(k)).(live := map["A" := A(1, 2 * k - 1)]["B" := B(1, 2 * k - 1)],
                          versions := {} + {A(1, 2 * k - 1)} + {B(1, 2 * k - 1)})
  }

  function AfterGrabs(k: int): State {
    AfterCreates(k).(hist := [Object(k, [])] + [Object(k, [RecordA(1, 2 * k - 1)])]
                             + [Object(k, [RecordA(1, 2 * k - 1), RecordB(1, 2 * k - 1)])])
  }

  function AfterRescales(k: int): State {
    var s := AfterGrabs(k);
    s.(live := s.live["A" := A(2, 2 * k)]["B" := B(2, 2 * k)], versions := s.versions + {A(2, 2 * k)} + {B(2, 2 * k)})
  }

  function AfterUpdates(k: int): State {
    var s := AfterRescales(k);
    s.(hist := s.hist + [Object(k, [RecordA(2, 2 * k), RecordB(1, 2 * k - 1)])]
               + [Object(k, [RecordA(2, 2 * k), RecordB(2, 2 * k)])])
  }

  /** Two views are created over groups that already have their values. */
  lemma CreatesReachable(k: int)
    requires InRange(k)
    ensures Reachable(AfterCreates(k))
  {
    Names();
    StartIsReachable(FourGroups(k));
    CreateReachable(Start(FourGroups(k)), "A", 1, "a", "b", 2 * k - 1);
    var s := Start(FourGroups(k)).(live := map["A" := A(1, 2 * k - 1)], versions := {} + {A(1, 2 * k - 1)});
    CreateReachable(s, "B", 2, "c", "d", 2 * k - 1);
  }

  lemma TakesFirst(v: ScaleView, r: Lock)
    requires SplitOf(v).Some? && LockOf(v) == r
    ensures GrabOrUpdate([], v) == Ok((true, [r]))
  {
    assert [] + [r] == [r];
  }

  lemma TakesSecond(l: Lock, v: ScaleView, r: Lock)
    requires IndexOf([l], v).None? && Obstacle([l], v).None? && SplitOf(v).Some? && LockOf(v) == r
    ensures GrabOrUpdate([l], v) == Ok((true, [l, r]))
  {
    assert [l] + [r] == [l, r];
  }

  lemma FirstGrab(k: int)
    requires InRange(k)
    ensures GrabOrUpdate([], A(1, 2 * k - 1)) == Ok((true, [RecordA(1, 2 * k - 1)]))
  {
    SplitOfA(1, 2 * k - 1);
    TakesFirst(A(1, 2 * k - 1), RecordA(1, 2 * k - 1));
  }

  lemma SecondGrab(k: int)
    requires InRange(k)
    ensures GrabOrUpdate([RecordA(1, 2 * k - 1)], B(1, 2 * k - 1))
            == Ok((true, [RecordA(1, 2 * k - 1), RecordB(1, 2 * k - 1)]))
  {
    SplitOfB(1, 2 * k - 1);
    NoSharedGroup(k);
    TakesSecond(RecordA(1, 2 * k - 1), B(1, 2 * k - 1), RecordB(1, 2 * k - 1));
  }

  lemma SplitOfA(generation: int, n: int)
    requires 0 <= n <= MAX_INT32
    ensures SplitOf(A(generation, n)).Some? && LockOf(A(generation, n)) == RecordA(generation, n)
  {
    Names();
    RecordOfView("A", 1, generation, "a", "b", n);
  }

  lemma SplitOfB(generation: int, n: int)
    requires 0 <= n <= MAX_INT32
    ensures SplitOf(B(generation, n)).Some? && LockOf(B(generation, n)) == RecordB(generation, n)
  {
    Names();
    RecordOfView("B", 2, generation, "c", "d", n);
  }

  lemma NoSharedGroup(k: int)
    requires InRange(k)
    ensures IndexOf([RecordA(1, 2 * k - 1)], B(1, 2 * k - 1)).None?
    ensures Obstacle([RecordA(1, 2 * k - 1)], B(1, 2 * k - 1)).None?
  {
    TwoGroups("c", "d");
    var l := RecordA(1, 2 * k - 1);
    assert GroupsOf(l) == {"a", "b"} by {
      assert l.groupLocks[0] in l.groupLocks && l.groupLocks[1] in l.groupLocks;
    }
    assert GroupSet(B(1, 2 * k - 1).scalePolicy) * GroupsOf(l) == {};
    assert [l][1..] == [];
  }

  /** They take their locks. */
  lemma GrabsReachable(k: int)
    requires InRange(k)
    ensures Reachable(AfterGrabs(k))
  {
    CreatesReachable(k);
    FirstGrab(k);
    GrabReachable(AfterCreates(k), A(1, 2 * k - 1), [RecordA(1, 2 * k - 1)]);
    var s := AfterCreates(k).(hist := [Object(k, [])] + [Object(k, [RecordA(1, 2 * k - 1)])]);
    SecondGrab(k);
    GrabReachable(s, B(1, 2 * k - 1), [RecordA(1, 2 * k - 1), RecordB(1, 2 * k - 1)]);
  }

  /** Both are rescaled to 2k. */
  lemma RescalesReachable(k: int)
    requires InRange(k)
    ensures Reachable(AfterRescales(k))
  {
    GrabsReachable(k);
    var s := AfterGrabs(k);
    RescaleReachable(s, A(1, 2 * k - 1), 2 * k);
    var s1 := s.(live := s.live["A" := A(2, 2 * k)], versions := s.versions + {A(2, 2 * k)});
    RescaleReachable(s1, B(1, 2 * k - 1), 2 * k);
  }

  lemma Updates(locks: seq<Lock>, v: ScaleView, i: nat, r: Lock)
    requires IndexOf(locks, v) == Some(i) && locks[i].generation != v.generation && locks[i].component == r.component
    requires SplitOf(v).Some? && LockOf(v) == r
    ensures GrabOrUpdate(locks, v) == Ok((true, locks[i := r]))
  {}

  lemma FirstUpdate(k: int)
    requires InRange(k)
    ensures GrabOrUpdate([RecordA(1, 2 * k - 1), RecordB(1, 2 * k - 1)], A(2, 2 * k))
            == Ok((true, [RecordA(2, 2 * k), RecordB(1, 2 * k - 1)]))
  {
    SplitOfA(2, 2 * k);
    Updates([RecordA(1, 2 * k - 1), RecordB(1, 2 * k - 1)], A(2, 2 * k), 0, RecordA(2, 2 * k));
    assert [RecordA(1, 2 * k - 1), RecordB(1, 2 * k - 1)][0 := RecordA(2, 2 * k)]
        == [RecordA(2, 2 * k), RecordB(1, 2 * k - 1)];
  }

  lemma SecondUpdate(k: int)
    requires InRange(k)
    ensures GrabOrUpdate([RecordA(2, 2 * k), RecordB(1, 2 * k - 1)], B(2, 2 * k))
            == Ok((true, [RecordA(2, 2 * k), RecordB(2, 2 * k)]))
  {
    SplitOfB(2, 2 * k);
    SecondRecord(k);
    Updates([RecordA(2, 2 * k), RecordB(1, 2 * k - 1)], B(2, 2 * k), 1, RecordB(2, 2 * k));
    assert [RecordA(2, 2 * k), RecordB(1, 2 * k - 1)][1 := RecordB(2, 2 * k)] == [RecordA(2, 2 * k), RecordB(2, 2 * k)];
  }

  /** Both update their records before either syncs. */
  lemma UpdatesReachable(k: int)
    requires InRange(k)
    ensures Reachable(AfterUpdates(k))
  {
    RescalesReachable(k);
    var s := AfterRescales(k);
    FirstUpdate(k);
    GrabReachable(s, A(2, 2 * k), [RecordA(2, 2 * k), RecordB(1, 2 * k - 1)]);
    SecondUpdate(k);
    GrabReachable(s.(hist := s.hist + [Object(k, [RecordA(2, 2 * k), RecordB(1, 2 * k - 1)])]), B(2, 2 * k),
                  [RecordA(2, 2 * k), RecordB(2, 2 * k)]);
  }

  lemma SecondRecord(k: int)
    requires InRange(k)
    ensures IndexOf([RecordA(2, 2 * k), RecordB(1, 2 * k - 1)], B(2, 2 * k)) == Some(1)
    ensures IndexOf([RecordA(2, 2 * k), RecordB(2, 2 * k)], B(2, 2 * k)) == Some(1)
  {
    assert [RecordA(2, 2 * k), RecordB(1, 2 * k - 1)][1..] == [RecordB(1, 2 * k - 1)];
    assert [RecordA(2, 2 * k), RecordB(2, 2 * k)][1..] == [RecordB(2, 2 * k)];
  }

  lemma FourReads(k: int)
    requires InRange(k)
    ensures var groups := FourGroups(k).frontend;
            Read(groups, "a") == Some(k) && Read(groups, "b") == Some(k - 1) && Read(groups, "c") == Some(k)
            && Read(groups, "d") == Some(k - 1)
  {
    var groups := FourGroups(k).frontend;
    assert groups[1..] == [NodeGroup("b", k - 1), NodeGroup("c", k), NodeGroup("d", k - 1)];
    assert groups[1..][1..] == [NodeGroup("c", k), NodeGroup("d", k - 1)];
    assert groups[1..][1..][1..] == [NodeGroup("d", k - 1)];
    assert Read(groups[1..][1..], "c") == Some(k) && Read(groups[1..][1..][1..], "d") == Some(k - 1);
    assert Read(groups[1..], "d") == Read(groups[1..][1..], "d") == Some(k - 1);
  }

  /** In both records the first group is at its value and the second is not. */
  lemma BothInMidMove(k: int)
    requires InRange(k)
    ensures !Held(FourGroups(k), RecordA(2, 2 * k)) && !OutOfTheWay(FourGroups(k), RecordA(2, 2 * k))
    ensures !Held(FourGroups(k), RecordB(2, 2 * k)) && !OutOfTheWay(FourGroups(k), RecordB(2, 2 * k))
  {
    FourReads(k);
    var groups, a, b := FourGroups(k).Get(Frontend), RecordA(2, 2 * k).groupLocks, RecordB(2, 2 * k).groupLocks;
    assert AtLock(groups, a[0]) && !AtLock(groups, a[1]) && AtLock(groups, b[0]) && !AtLock(groups, b[1]);
  }

  lemma BothReady(k: int)
    requires InRange(k)
    ensures ReadyToSync(AfterUpdates(k), A(2, 2 * k), 0) && ReadyToSync(AfterUpdates(k), B(2, 2 * k), 1)
  {
    UpdatesReachable(k);
    ReachableInv(AfterUpdates(k));
    SecondRecord(k);
  }

  lemma NeitherSyncs(k: int)
    requires InRange(k)
    ensures SyncNow(AfterUpdates(k), A(2, 2 * k)) == AfterUpdates(k)
    ensures SyncNow(AfterUpdates(k), B(2, 2 * k)) == AfterUpdates(k)
  {
    BothReady(k);
    BothInMidMove(k);
    var s := AfterUpdates(k);
    MidMoveBlocksOthers(s, |s.hist| - 1, A(2, 2 * k), RecordA(2, 2 * k), RecordB(2, 2 * k));
    MidMoveBlocksOthers(s, |s.hist| - 1, B(2, 2 * k), RecordB(2, 2 * k), RecordA(2, 2 * k));
  }

  lemma FirstCannotSync(k: int)
    requires InRange(k)
    ensures CannotSync(AfterUpdates(k), A(2, 2 * k), 0)
  {
    BothReady(k);
    SplitOfA(2, 2 * k);
    BothInMidMove(k);
    NeitherSyncs(k);
  }

  lemma SecondCannotSync(k: int)
    requires InRange(k)
    ensures CannotSync(AfterUpdates(k), B(2, 2 * k), 1)
  {
    BothReady(k);
    SplitOfB(2, 2 * k);
    BothInMidMove(k);
    NeitherSyncs(k);
  }

  /** The state is reachable, and in it neither view can sync. */
  lemma ScaleViewsCanBlockEachOther(k: int)
    requires InRange(k)
    ensures Reachable(AfterUpdates(k)) && Blocked(AfterUpdates(k), A(2, 2 * k), B(2, 2 * k))
  {
    UpdatesReachable(k);
    FirstCannotSync(k);
    SecondCannotSync(k);
  }

  lemma NoGroupMoved(k: int)
    requires InRange(k)
    ensures SameGroups(AfterUpdates(k).hist)
    ensures Current(AfterUpdates(k)) == Object(k, [RecordA(2, 2 * k), RecordB(2, 2 * k)])
  {}

  lemma BothStand(k: int, o: RisingWave, live: map<string, ScaleView>)
    requires InRange(k) && o == Object(k, [RecordA(2, 2 * k), RecordB(2, 2 * k)])
    requires "A" in live && live["A"] == A(2, 2 * k) && "B" in live && live["B"] == B(2, 2 * k)
    ensures Stands(o, live, RecordA(2, 2 * k)) && Stands(o, live, RecordB(2, 2 * k))
  {
    BothInMidMove(k);
    assert o.locks[0] in o.locks && o.locks[1] in o.locks;
  }

  lemma BothLive(k: int)
    ensures var live := AfterUpdates(k).live;
            "A" in live && live["A"] == A(2, 2 * k) && "B" in live && live["B"] == B(2, 2 * k)
  {}

  /** And it stays so whatever the controllers do. */
  lemma BlockedViewsAreStuck(k: int)
    requires InRange(k)
    ensures Reachable(AfterUpdates(k)) && Stuck(AfterUpdates(k), RecordA(2, 2 * k), RecordB(2, 2 * k))
  {
    UpdatesReachable(k);
    ReachableInv(AfterUpdates(k));
    assert RecordsSound(AfterUpdates(k), Current(AfterUpdates(k)));
    NoGroupMoved(k);
    BothLive(k);
    BothStand(k, Current(AfterUpdates(k)), AfterUpdates(k).live);
  }

  // ---- A stale patch takes back an edit ----

  function ThreeGroups(a: int, b: int, c: int): Components {
    Components([], [NodeGroup("a", a), NodeGroup("b", b), NodeGroup("c", c)], [], [])
  }

  lemma ThreeReads(a: int, b: int, c: int)
    ensures var groups := ThreeGroups(a, b, c).frontend;
            Read(groups, "a") == Some(a) && Read(groups, "b") == Some(b) && Read(groups, "c") == Some(c)
  {
    var groups := ThreeGroups(a, b, c).frontend;
    assert groups[1..] == [NodeGroup("b", b), NodeGroup("c", c)] && groups[1..][1..] == [NodeGroup("c", c)];
    assert Read(groups[1..], "c") == Read(groups[1..][1..], "c") == Some(c);
  }

  /** View A has its lock over a and b, and a user then sets c, which nobody locks. */
  function AfterEdit(k: int, was: int, edit: int): State {
    var s := Start(ThreeGroups(k - 1, k - 1, was));
    var locked := RisingWave([RecordA(1, 2 * k - 1)], ThreeGroups(k - 1, k - 1, was));
    State(0, s.hist + [locked] + [locked.(components := ThreeGroups(k - 1, k - 1, edit))],
          map["A" := A(1, 2 * k - 1)], {} + {A(1, 2 * k - 1)}, {}, map[])
  }

  lemma EditAccepted(k: int, was: int, edit: int)
    ensures GuardAccepts(ThreeGroups(k - 1, k - 1, was), ThreeGroups(k - 1, k - 1, edit), [RecordA(1, 2 * k - 1)])
  {
    ThreeReads(k - 1, k - 1, was);
    ThreeReads(k - 1, k - 1, edit);
    var locks := RecordA(1, 2 * k - 1).groupLocks;
    assert PendingRun(ThreeGroups(k - 1, k - 1, was).frontend, ThreeGroups(k - 1, k - 1, edit).frontend, locks, 1);
  }

  lemma EditReachable(k: int, was: int, edit: int)
    requires InRange(k)
    ensures Reachable(AfterEdit(k, was, edit))
  {
    Names();
    var before := ThreeGroups(k - 1, k - 1, was);
    StartIsReachable(before);
    CreateReachable(Start(before), "A", 1, "a", "b", 2 * k - 1);
    var s := Start(before).(live := map["A" := A(1, 2 * k - 1)], versions := {} + {A(1, 2 * k - 1)});
    FirstGrab(k);
    GrabReachable(s, A(1, 2 * k - 1), [RecordA(1, 2 * k - 1)]);
    EditAccepted(k, was, edit);
    var s1 := s.(hist := s.hist + [RisingWave([RecordA(1, 2 * k - 1)], before)]);
    WriteReachable(s1, ThreeGroups(k - 1, k - 1, edit));
  }

  lemma SyncedList(k: int, was: int)
    ensures ApplyLocks(ThreeGroups(k - 1, k - 1, was).frontend, RecordA(1, 2 * k - 1).groupLocks)
            == ThreeGroups(k, k - 1, was).frontend
  {
    var groups, locks := ThreeGroups(k - 1, k - 1, was).frontend, RecordA(1, 2 * k - 1).groupLocks;
    assert locks[1..] == [locks[1]] && locks[1..][1..] == [];
    var first := Write(groups, "a", k);
    assert first == ThreeGroups(k, k - 1, was).frontend;
    ThreeReads(k, k - 1, was);
    WriteSame(first, "b", k - 1);
    assert ApplyLocks(first, [locks[1]]) == first;
  }

  lemma SyncAccepted(k: int, was: int, edit: int)
    ensures GuardAccepts(ThreeGroups(k - 1, k - 1, edit), ThreeGroups(k, k - 1, was), [RecordA(1, 2 * k - 1)])
  {
    ThreeReads(k, k - 1, was);
  }

  /** The controller syncs from the version before the edit: its patch gets through and c is back. */
  lemma StalePatchRevertsEdit(k: int, was: int, edit: int)
    requires InRange(k)
    ensures Reachable(AfterEdit(k, was, edit))
    ensures var s, sync := AfterEdit(k, was, edit), SyncReplicas(1, A(1, 2 * k - 1));
      && Read(Current(s).components.frontend, "c") == Some(edit)
      && Enabled(s, sync) && Sane(Apply(s, sync)) && Read(Current(Apply(s, sync)).components.frontend, "c") == Some(was)
  {
    EditReachable(k, was, edit);
    ThreeReads(k - 1, k - 1, edit);
    ThreeReads(k, k - 1, was);
    SyncedList(k, was);
    SyncAccepted(k, was, edit);
    var s := AfterEdit(k, was, edit);
    assert IndexOf(s.hist[1].locks, A(1, 2 * k - 1)) == Some(0);
    assert ThreeGroups(k - 1, k - 1, edit).With(Frontend, ThreeGroups(k, k - 1, was).frontend)
        == ThreeGroups(k, k - 1, was);
  }
}
