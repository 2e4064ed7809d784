/** One reconcile of a RisingWave: the branches of its workflow, what each of their actions does to the
    copy of the status, and the manager calls behind them. */
module Reconciling {
  import opened Lex
  import opened ScaleViewLocks
  import opened LockGuard
  import opened StatusManager
  import opened GroupSync
  import opened GroupStatus

  /** The branches of the workflow that touch conditions or locks. */
  datatype Branch = FirstTime | Starting | Recovering | Maintaining | Upgrade | Observing | Releasing

  datatype Action = Mark(kind: ConditionType, verdict: Verdict) | Forget(kind: ConditionType) | Await | Judge | Sweep

  /** The workloads seen, component by component. */
  datatype Sight = Sight(meta: seq<Observed>, frontend: seq<Observed>, compute: seq<Observed>,
                         compactor: seq<Observed>) {
    function Get(c: Component): seq<Observed> {
      match c
      case Meta => meta
      case Frontend => frontend
      case Compute => compute
      case Compactor => compactor
    }
  }

  /** What the running status branch reads: the services it found, whether the configuration was there,
      and the workloads. */
  datatype Seen = Seen(services: set<Component>, config: bool, sight: Sight)

  /** Syncing everything and waiting for it is run once and shared by the branches that need it. */
  datatype Shared = Idle | Working | Passed(sight: Sight) | Failed

  /** A call that a branch has made: a condition updated, or removed when `what` is `None`. */
  datatype Call = Call(b: Branch, kind: ConditionType, what: Option<Verdict>, clock: nat)

  /** What a branch has got from reading: nothing yet, a failure, or what it read. */
  datatype Reading<+T> = Pending | Unread | Read(value: T)

  /** A reconcile: the version it read, the copy it works on, what is left of every branch, what the
      running status branch has judged by, the records that the release branch keeps, and the calls made so far. */
  datatype Reconcile = Reconcile(snap: nat, was: Stored, now: Status, todo: map<Branch, seq<Action>>,
                                 shared: Shared, judged: Reading<Seen>, kept: Reading<seq<Lock>>, calls: seq<Call>)

  function ReadingOf<T>(r: Option<T>): Reading<T> {
    if r.None? then Unread else Read(r.value)
  }

  // ---- The branches ----

  function Says(o: Stored, kind: ConditionType): Option<Verdict> {
    Get(o.status.conditions, kind)
  }

  /** The barriers of a branch read the snapshot only, so what a branch will do is known from it. */
  function Program(b: Branch, was: Stored): seq<Action> {
    match b
    case FirstTime =>
      if was.status.conditions != [] then []
      else [Mark(Initializing, Yes), Mark(Running, No)]
    case Starting => if Says(was, Initializing) == Some(Yes) then [Await, Forget(Initializing)] else []
    case Recovering => if Says(was, Running) == Some(No) then [Await, Mark(Running, Yes)] else []
    case Maintaining =>
      if Says(was, Running) == Some(Yes) && was.status.observedGeneration < was.generation
      then [Mark(Upgrading, Yes)] else []
    case Upgrade => if Says(was, Upgrading) == Some(Yes) then [Await, Mark(Upgrading, No)] else []
    case Observing => [Judge]
    case Releasing => [Sweep]
  }

  /** The barriers, as the controller evaluates them. */
  method Plan(mgr: RisingWaveManager, b: Branch) returns (program: seq<Action>)
    ensures program == Program(b, mgr.risingwave)
  {
    var initializing := mgr.GetCondition(Initializing);
    var running := mgr.GetCondition(Running);
    var upgrading := mgr.GetCondition(Upgrading);
    match b {
      case FirstTime =>
        if mgr.risingwave.status.conditions != [] { return []; }
        program := [Mark(Initializing, Yes), Mark(Running, No)];
      case Starting =>
        if initializing.None? || initializing.value.verdict != Yes { return []; }
        program := [Await, Forget(Initializing)];
      case Recovering =>
        if running.None? || running.value.verdict != No { return []; }
        program := [Await, Mark(Running, Yes)];
      case Maintaining =>
        if running.None? || running.value.verdict != Yes { return []; }
        if !(mgr.risingwave.status.observedGeneration < mgr.risingwave.generation) { return []; }
        program := [Mark(Upgrading, Yes)];
      case Upgrade =>
        if upgrading.None? || upgrading.value.verdict != Yes { return []; }
        program := [Await, Mark(Upgrading, No)];
      case Observing => program := [Judge];
      case Releasing => program := [Sweep];
    }
  }

  function NamePrefix(o: Stored, c: Component): string {
    match c
    case Meta => o.name + "-meta"
    case Frontend => o.name + "-frontend"
    case Compute => o.name + "-compute"
    case Compactor => o.name + "-compactor"
  }

  function TargetOf(o: Stored, c: Component): Target {
    Target(NamePrefix(o, c), Replicas(o.components.Get(c)).Keys, o.generation)
  }

  function WordOf(c: Component): string {
    match c case Meta => "-meta" case Frontend => "-frontend" case Compute => "-compute" case Compactor => "-compactor"
  }

  lemma PrefixSpelled(o: Stored, c: Component, group: string, i: nat)
    requires i < |WordOf(c)|
    ensures |NameOf(TargetOf(o, c), group)| >= |o.name| + |WordOf(c)|
    ensures NameOf(TargetOf(o, c), group)[|o.name| + i] == WordOf(c)[i]
  {
    assert NamePrefix(o, c) == o.name + WordOf(c);
    assert NamePrefix(o, c)[|o.name| + i] == WordOf(c)[i];
    NameSpelled(TargetOf(o, c), group, |o.name| + i);
  }

  /** No two groups of one object, of whatever components, have workloads of the same name. */
  lemma WorkloadNamesDiffer(o: Stored, c: Component, g: string, d: Component, h: string)
    requires NameOf(TargetOf(o, c), g) == NameOf(TargetOf(o, d), h)
    ensures c == d && g == h
  {
    PrefixSpelled(o, c, g, 1);
    PrefixSpelled(o, d, h, 1);
    if |WordOf(c)| > 5 && |WordOf(d)| > 5 {
      PrefixSpelled(o, c, g, 5);
      PrefixSpelled(o, d, h, 5);
    }
    SameWord(c, d);
    NamesDiffer(TargetOf(o, c), g, h);
  }

  lemma SameWord(c: Component, d: Component)
    requires WordOf(c)[1] == WordOf(d)[1]
    requires |WordOf(c)| > 5 && |WordOf(d)| > 5 ==> WordOf(c)[5] == WordOf(d)[5]
    ensures c == d
  {}

  /** The barrier at the end of the shared part, over all components. */
  ghost predicate AllProceed(o: Stored, sight: Sight) {
    forall c: Component :: Proceeds(TargetOf(o, c), sight.Get(c))
  }

  /** The service of a component is missing, or one of its expected groups. */
  ghost predicate ComponentMissing(o: Stored, seen: Seen, c: Component) {
    c !in seen.services || SomeMissing(o.components.Get(c), seen.sight.Get(c))
  }

  ghost predicate SeesMissing(o: Stored, seen: Seen) {
    !seen.config || exists c :: ComponentMissing(o, seen, c)
  }

  ghost predicate HasWorkload(sight: Sight, c: Component, g: NodeGroup) {
    exists w :: w in sight.Get(c) && w.workload.group == g.name
  }

  /** What counts as missing: the configuration, the service of some component, or all workloads of some node group. */
  lemma SeesMissingExactly(o: Stored, seen: Seen)
    ensures SeesMissing(o, seen) <==>
            || !seen.config
            || (exists c: Component :: c !in seen.services)
            || exists c: Component, g :: g in o.components.Get(c) && !HasWorkload(seen.sight, c, g)
  {
    forall c: Component
      ensures ComponentMissing(o, seen, c) <==>
              c !in seen.services || exists g :: g in o.components.Get(c) && !HasWorkload(seen.sight, c, g)
    {
      GroupMissingExactly(o.components.Get(c), seen.sight, c);
    }
  }

  lemma GroupMissingExactly(groups: seq<NodeGroup>, sight: Sight, c: Component)
    ensures SomeMissing(groups, sight.Get(c)) <==> exists g :: g in groups && !HasWorkload(sight, c, g)
  {
    forall g | g in groups
      ensures g.name in Replicas(groups) && (Found(sight.Get(c), g.name) <==> HasWorkload(sight, c, g))
    {}
  }

  ghost predicate Missed(r: Reconcile) {
    r.judged.Read? && SeesMissing(r.was, r.judged.value)
  }

  /** The barrier and the running status cannot disagree about the groups of one sight. */
  lemma PassedSightHasNothingMissing(o: Stored, sight: Sight)
    requires AllProceed(o, sight)
    ensures !SeesMissing(o, Seen({Meta, Frontend, Compute, Compactor}, true, sight))
  {
    forall c ensures !ComponentMissing(o, Seen({Meta, Frontend, Compute, Compactor}, true, sight), c) {
      assert Proceeds(TargetOf(o, c), sight.Get(c));
    }
  }

  // ---- Steps of one reconcile ----

  function Begin(hist: seq<Stored>, snap: nat): Reconcile
    requires snap < |hist|
  {
    Reconcile(snap, hist[snap], hist[snap].status, map b: Branch | true :: Program(b, hist[snap]), Idle, Pending,
              Pending, [])
  }

  predicate CanAct(r: Reconcile, b: Branch) {
    && b in r.todo && r.todo[b] != [] && !r.todo[b][0].Judge? && !r.todo[b][0].Sweep?
    && (r.todo[b][0].Await? ==> r.shared.Passed? || r.shared.Failed?)
  }

  /** The copy of the status after `UpdateCondition`; callers pass no time. */
  function AfterMark(r: Reconcile, kind: ConditionType, verdict: Verdict, clock: nat): Status {
    r.now.(conditions :=
             WithCondition(r.now.conditions, Stamped(r.was.status.conditions, Condition(kind, verdict, 0), clock)))
  }

  /** The next action of a branch. A failed wait ends the branch. */
  function Acted(r: Reconcile, b: Branch, clock: nat): Reconcile
    requires CanAct(r, b)
  {
    var rest := r.(todo := r.todo[b := r.todo[b][1..]]);
    match r.todo[b][0]
    case Mark(kind, verdict) =>
      rest.(now := AfterMark(r, kind, verdict, clock), calls := r.calls + [Call(b, kind, Some(verdict), clock)])
    case Forget(kind) =>
      rest.(now := r.now.(conditions := WithoutCondition(r.now.conditions, kind)),
            calls := r.calls + [Call(b, kind, None, clock)])
    case _ => if r.shared.Passed? then rest else r.(todo := r.todo[b := []])
  }

  /** The running status branch: something missing turns Running off; a failed read ends the branch. */
  ghost function Judged(r: Reconcile, seen: Option<Seen>, clock: nat): Reconcile {
    var rest := r.(todo := r.todo[Observing := []], judged := ReadingOf(seen));
    if seen.Some? && SeesMissing(r.was, seen.value)
    then rest.(now := AfterMark(r, Running, No, clock), calls := r.calls + [Call(Observing, Running, Some(No), clock)])
    else rest
  }

  function Swept(r: Reconcile, kept: Option<seq<Lock>>): Reconcile {
    var rest := r.(todo := r.todo[Releasing := []], kept := ReadingOf(kept));
    if kept.Some? then rest.(now := r.now.(locks := kept.value)) else rest
  }

  /** The shared part begins by recording the generation it works for. */
  function Opened(r: Reconcile): Reconcile {
    r.(shared := Working, now := r.now.(observedGeneration := r.was.generation))
  }

  /** The shared part ends when the barrier has passed on what it saw, or with a failure. */
  function Closed(r: Reconcile, sight: Option<Sight>): Reconcile {
    r.(shared := if sight.Some? then Passed(sight.value) else Failed)
  }

  ghost predicate Done(r: Reconcile) {
    !r.shared.Working? && forall b: Branch :: b in r.todo && r.todo[b] == []
  }

  // ---- The manager calls behind the steps ----

  method Perform(mgr: RisingWaveManager, a: Action, clock: nat, ghost r: Reconcile, ghost b: Branch)
    requires CanAct(r, b) && r.todo[b][0] == a && mgr.mutableStatus == r.now && mgr.risingwave == r.was
    modifies mgr
    ensures mgr.mutableStatus == Acted(r, b, clock).now
  {
    match a {
      case Mark(kind, verdict) => mgr.UpdateCondition(Condition(kind, verdict, 0), clock);
      case Forget(kind) => mgr.RemoveCondition(kind);
      case _ =>
    }
  }

  method OpenShared(mgr: RisingWaveManager, ghost r: Reconcile)
    requires mgr.mutableStatus == r.now && mgr.risingwave == r.was
    modifies mgr
    ensures mgr.mutableStatus == Opened(r).now
  {
    mgr.SyncObservedGeneration();
  }

  /** `kept` is `None` when reading an owner failed: then the records are left alone. */
  method KeepAlive(mgr: RisingWaveManager, kept: Option<seq<Lock>>, ghost r: Reconcile)
    requires mgr.mutableStatus == r.now
    modifies mgr
    ensures mgr.mutableStatus == Swept(r, kept).now
  {
    if kept.Some? { mgr.KeepLock(kept.value); }
  }

  method Finish(mgr: RisingWaveManager, server: StatusServer, ghost r: Reconcile) returns (conflict: bool)
    requires mgr.mutableStatus == r.now && mgr.snap == r.snap < |server.hist| && server.hist[r.snap] == mgr.risingwave
    modifies server
    ensures server.hist == Commit(old(server.hist), r.snap, r.now)
  {
    conflict := mgr.UpdateRemoteRisingWaveStatus(server);
  }

  method ContainsMissing(groups: seq<Entry>) returns (found: bool)
    ensures found <==> exists e :: e in groups && !e.present
  {
    for i := 0 to |groups|
      invariant forall e :: e in groups[..i] ==> e.present
    {
      assert groups[..i + 1] == groups[..i] + [groups[i]];
      if !groups[i].present {
        assert groups[i] in groups;
        return true;
      }
    }
    assert groups[..|groups|] == groups;
    found := false;
  }

  /** One row of the table of what may be missing: the service of a component, and its groups. */
  method ComponentBroken(o: Stored, seen: Seen, c: Component) returns (broken: bool)
    ensures broken <==> ComponentMissing(o, seen, c)
  {
    var status := BuildNodeGroupStatus(o.components.Get(c), seen.sight.Get(c));
    MissingReportedExactly(o.components.Get(c), seen.sight.Get(c), status);
    var missing := ContainsMissing(status.groups);
    broken := c !in seen.services || missing;
  }

  /** The running status branch, with the status of every component built from its workloads. */
  method CollectRunningStatistics(mgr: RisingWaveManager, seen: Seen, clock: nat, ghost r: Reconcile)
    requires mgr.mutableStatus == r.now && mgr.risingwave == r.was
    modifies mgr
    ensures mgr.mutableStatus == Judged(r, Some(seen), clock).now
  {
    var meta := ComponentBroken(mgr.risingwave, seen, Meta);
    var frontend := ComponentBroken(mgr.risingwave, seen, Frontend);
    var compute := ComponentBroken(mgr.risingwave, seen, Compute);
    var compactor := ComponentBroken(mgr.risingwave, seen, Compactor);
    if c :| ComponentMissing(r.was, seen, c) { assert c == Meta || c == Frontend || c == Compute || c == Compactor; }
    if meta || frontend || compute || compactor || !seen.config {
      mgr.UpdateCondition(Condition(Running, No, 0), clock);
    }
  }
}
