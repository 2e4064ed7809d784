/** The conditions of a RisingWave as a state machine: reconciles run their branches in any
    interleaving on one copy of a status read at some resource version, and swap it in if nobody
    wrote in between. */
module ConditionMachine {
  import opened Lex
  import opened ScaleViewLocks
  import opened LockGuard
  import opened StatusManager
  import opened GroupStatus
  import opened Reconciling

  // ---- The system ----

  datatype Writer = Creation | Edit | LockWrite | StatusWrite(r: Reconcile)

  /** `hist[k]` is the object at resource version k and `writers[k]` is who wrote it. */
  datatype State = State(hist: seq<Stored>, writers: seq<Writer>, recs: map<nat, Reconcile>)

  datatype Step =
    | EditSpec(components: Components)
    | WriteLocks(snap: nat, locks: seq<Lock>)
    | Start(id: nat, snap: nat)
    | Act(id: nat, b: Branch, clock: nat)
    | Observe(id: nat, seen: Option<Seen>, clock: nat)
    | Release(id: nat, kept: Option<seq<Lock>>)
    | OpenShared(id: nat)
    | CloseShared(id: nat, sight: Option<Sight>)
    | Finish(id: nat)

  ghost predicate Enabled(s: State, step: Step) {
    && s.hist != []
    && match step
       case EditSpec(_) => true
       case WriteLocks(snap, _) => snap < |s.hist|
       case Start(id, snap) => id !in s.recs && snap < |s.hist|
       case Act(id, b, clock) => id in s.recs && CanAct(s.recs[id], b) && clock > 0
       case Observe(id, _, clock) =>
         id in s.recs && Observing in s.recs[id].todo && s.recs[id].todo[Observing] == [Judge] && clock > 0
       case Release(id, _) => id in s.recs && Releasing in s.recs[id].todo && s.recs[id].todo[Releasing] == [Sweep]
       case OpenShared(id) => id in s.recs && s.recs[id].shared.Idle? && SomeoneAwaits(s.recs[id])
       case CloseShared(id, sight) =>
         id in s.recs && s.recs[id].shared.Working? && (sight.Some? ==> AllProceed(s.recs[id].was, sight.value))
       case Finish(id) => id in s.recs && Done(s.recs[id]) && s.recs[id].snap < |s.hist|
  }

  ghost function WriterOf(s: State, k: nat): Writer {
    if k < |s.writers| then s.writers[k] else Creation
  }

  ghost predicate SomeoneAwaits(r: Reconcile) {
    exists b :: b in r.todo && r.todo[b] != [] && r.todo[b][0] == Await
  }

  ghost function Write(s: State, hist: seq<Stored>, w: Writer): State
    requires |hist| <= |s.hist| + 1
  {
    if |hist| == |s.hist| + 1 then s.(hist := hist, writers := s.writers + [w]) else s
  }

  ghost function Apply(s: State, step: Step): State
    requires Enabled(s, step)
  {
    match step
    case EditSpec(components) =>
      var cur := s.hist[|s.hist| - 1];
      Write(s, s.hist + [cur.(components := components, generation := cur.generation + 1)], Edit)
    case WriteLocks(snap, locks) =>
      Write(s, Commit(s.hist, snap, s.hist[snap].status.(locks := locks)), LockWrite)
    case Start(id, snap) => s.(recs := s.recs[id := Begin(s.hist, snap)])
    case Act(id, b, clock) => s.(recs := s.recs[id := Acted(s.recs[id], b, clock)])
    case Observe(id, seen, clock) => s.(recs := s.recs[id := Judged(s.recs[id], seen, clock)])
    case Release(id, kept) => s.(recs := s.recs[id := Swept(s.recs[id], kept)])
    case OpenShared(id) => s.(recs := s.recs[id := Opened(s.recs[id])])
    case CloseShared(id, sight) =>
      s.(recs := s.recs[id := Closed(s.recs[id], sight)])
    case Finish(id) =>
      var r := s.recs[id];
      Write(s.(recs := s.recs - {id}), Commit(s.hist, r.snap, r.now), StatusWrite(r))
  }

  ghost predicate Init(s: State) {
    && |s.hist| == 1 && s.hist[0].generation >= 1 && s.hist[0].status == Status(0, [], [])
    && s.writers == [Creation] && s.recs == map[]
  }

  ghost predicate IsRun(run: seq<State>, steps: seq<Step>) {
    && |run| == |steps| + 1 && Init(run[0])
    && forall i :: 0 <= i < |steps| ==> Enabled(run[i], steps[i]) && run[i + 1] == Apply(run[i], steps[i])
  }

  // ---- The invariant ----

  ghost predicate ConditionsOk(conds: seq<Condition>) {
    && Unique(conds)
    && (conds == [] || Get(conds, Running) == Some(Yes) || Get(conds, Running) == Some(No))
    && (Get(conds, Initializing).Some? ==> Get(conds, Initializing) == Some(Yes) && Get(conds, Running) == Some(No))
  }

  ghost predicate StoredOk(o: Stored) {
    ConditionsOk(o.status.conditions) && o.status.observedGeneration <= o.generation
  }

  type Todo = map<Branch, seq<Action>>

  ghost predicate Left(program: seq<Action>, todo: seq<Action>) {
    todo == program || todo == [] || (|program| == 2 && todo == program[1..])
  }

  /** Every branch has a rest of its program left; one that is past its wait has seen it pass. */
  ghost predicate ProgramsOk(was: Stored, todo: Todo, shared: Shared) {
    forall b: Branch ::
      && b in todo && Left(Program(b, was), todo[b])
      && (|todo[b]| == 1 && |Program(b, was)| == 2 && Program(b, was)[0] == Await ==> shared.Passed?)
  }

  /** What a condition list says about the three types that occur. */
  datatype View = View(running: Option<Verdict>, initializing: Option<Verdict>, upgrading: Option<Verdict>)

  function ViewOf(conds: seq<Condition>): View {
    View(Get(conds, Running), Get(conds, Initializing), Get(conds, Upgrading))
  }

  function MarkedView(v: View, kind: ConditionType, verdict: Verdict): View {
    match kind
    case Running => v.(running := Some(verdict))
    case Initializing => v.(initializing := Some(verdict))
    case Upgrading => v.(upgrading := Some(verdict))
    case _ => v
  }

  function ForgottenView(v: View, kind: ConditionType): View {
    match kind
    case Running => v.(running := None)
    case Initializing => v.(initializing := None)
    case Upgrading => v.(upgrading := None)
    case _ => v
  }

  /** From a Running cluster only a missing part turns Running off; to a Running one only the passed
      barrier leads. */
  ghost predicate RunningOk(was: Stored, todo: Todo, shared: Shared, missing: bool, now: Option<Verdict>)
    requires ProgramsOk(was, todo, shared)
  {
    && (was.status.conditions == [] ==> now == Some(No) || (now == None && todo[FirstTime] != []))
    && (Says(was, Running) == Some(Yes) ==> now == Some(if missing then No else Yes))
    && (Says(was, Running) == Some(No) ==> now == Some(No) || (now == Some(Yes) && shared.Passed?))
    && (Says(was, Running) == Some(No) && todo[Recovering] == [] ==> shared.Failed? || now == Some(Yes) || missing)
  }

  ghost predicate InitializingOk(was: Stored, todo: Todo, shared: Shared, now: Option<Verdict>)
    requires ProgramsOk(was, todo, shared)
  {
    && (now.Some? ==> now == Some(Yes))
    && (was.status.conditions != [] && Says(was, Initializing).None? ==> now.None?)
    && (was.status.conditions == [] && now.None? ==> |todo[FirstTime]| == 2)
    && (Says(was, Initializing).Some? && now.None? ==> shared.Passed?)
    && (Says(was, Initializing).Some? && todo[Starting] == [] ==> shared.Failed? || now.None?)
  }

  /** A generation that is not picked up by this reconcile leaves the Upgrading mark behind. */
  ghost predicate UpgradingOk(was: Stored, todo: Todo, shared: Shared, now: Option<Verdict>)
    requires ProgramsOk(was, todo, shared)
  {
    && (Program(Maintaining, was) != [] && todo[Maintaining] == [] && !shared.Passed? ==> now == Some(Yes))
    && (Says(was, Upgrading) == Some(Yes) && now != Some(Yes) ==> shared.Passed?)
    && (Says(was, Upgrading) != Some(Yes) && now == Some(Yes) ==> Program(Maintaining, was) != [])
  }

  ghost predicate Consistent(was: Stored, todo: Todo, shared: Shared, missing: bool, v: View) {
    && StoredOk(was) && ProgramsOk(was, todo, shared)
    && RunningOk(was, todo, shared, missing, v.running)
    && InitializingOk(was, todo, shared, v.initializing)
    && UpgradingOk(was, todo, shared, v.upgrading)
  }

  ghost predicate SharedOk(r: Reconcile) {
    && r.now.observedGeneration == (if r.shared.Idle? then r.was.status.observedGeneration else r.was.generation)
    && (r.shared.Passed? ==> AllProceed(r.was, r.shared.sight))
  }

  /** The reconcile has marked the type as it was marked already, and so wiped its time. */
  ghost predicate SaidAgain(was: Stored, todo: Todo, missing: bool, kind: ConditionType, verdict: Verdict) {
    || (kind == Running && verdict == No && missing)
    || (kind == Upgrading && verdict == Yes && Program(Maintaining, was) != []
        && Maintaining in todo && todo[Maintaining] == [])
  }

  ghost predicate TimeOk(was: Stored, todo: Todo, missing: bool, now: seq<Condition>, kind: ConditionType) {
    var said := Get(now, kind);
    && (said.Some? && said != Says(was, kind) ==> Since(now, kind) > 0)
    && (said.Some? && said == Says(was, kind) ==>
          Since(now, kind) == if SaidAgain(was, todo, missing, kind, said.value) then 0
                              else Since(was.status.conditions, kind))
  }

  ghost predicate TimesOk(was: Stored, todo: Todo, missing: bool, now: seq<Condition>) {
    forall kind :: TimeOk(was, todo, missing, now, kind)
  }

  ghost predicate VerdictsOk(r: Reconcile) {
    && Unique(r.now.conditions) && SharedOk(r)
    && Consistent(r.was, r.todo, r.shared, Missed(r), ViewOf(r.now.conditions))
  }

  /** The branches that look and release have done so exactly when nothing is left of them, and the lock records are
      those kept. */
  ghost predicate DutiesOk(was: Stored, todo: Todo, judged: Reading<Seen>, kept: Reading<seq<Lock>>, now: seq<Lock>) {
    && Observing in todo && (todo[Observing] == [] <==> !judged.Pending?)
    && Releasing in todo && (todo[Releasing] == [] <==> !kept.Pending?)
    && now == if kept.Read? then kept.value else was.status.locks
  }

  /** The last call about a type. */
  function LastCall(calls: seq<Call>, kind: ConditionType): (r: Option<Call>)
    ensures r.Some? ==> r.value in calls && r.value.kind == kind
    ensures r.None? ==> forall c :: c in calls ==> c.kind != kind
  {
    if calls == [] then None
    else if calls[|calls| - 1].kind == kind then Some(calls[|calls| - 1])
    else LastCall(calls[..|calls| - 1], kind)
  }

  /** What the last call about a type has left of it. */
  function Replay(was: seq<Condition>, calls: seq<Call>, kind: ConditionType): Option<Condition> {
    match LastCall(calls, kind)
    case None => Find(was, kind)
    case Some(c) => if c.what.None? then None else Some(Stamped(was, Condition(kind, c.what.value, 0), c.clock))
  }

  ghost predicate Replayed(was: seq<Condition>, calls: seq<Call>, now: seq<Condition>) {
    forall kind :: Find(now, kind) == Replay(was, calls, kind)
  }

  ghost predicate Called(calls: seq<Call>, b: Branch, kind: ConditionType) {
    exists c :: c in calls && c.b == b && c.kind == kind
  }

  /** Who says what about Running. */
  ghost predicate Plausible(was: Stored, c: Call) {
    c.kind == Running ==>
      || (c.b == Recovering && c.what == Some(Yes))
      || (c.b == Observing && c.what == Some(No))
      || (c.b == FirstTime && c.what == Some(No) && was.status.conditions == [])
  }

  ghost predicate CallersOk(was: Stored, todo: Todo, shared: Shared, missing: bool, calls: seq<Call>) {
    && (forall c :: c in calls ==> Plausible(was, c))
    && (missing ==> Called(calls, Observing, Running))
    && (Says(was, Running) == Some(No) && !shared.Failed? && Recovering in todo && todo[Recovering] == [] ==>
          Called(calls, Recovering, Running))
  }

  /** A running cluster has a generation that nobody has synced. */
  ghost predicate HasNewGeneration(was: Stored) {
    Says(was, Running) == Some(Yes) && was.status.observedGeneration < was.generation
  }

  /** Who says what about Upgrading. */
  ghost predicate PlausibleUpgrade(was: Stored, c: Call) {
    c.kind == Upgrading ==>
      || (c.b == Upgrade && c.what == Some(No) && Says(was, Upgrading) == Some(Yes))
      || (c.b == Maintaining && c.what == Some(Yes) && HasNewGeneration(was))
  }

  ghost predicate UpgradeCallsOk(was: Stored, todo: Todo, shared: Shared, calls: seq<Call>) {
    && (forall c :: c in calls ==> PlausibleUpgrade(was, c))
    && (Says(was, Upgrading) == Some(Yes) && !shared.Failed? && Upgrade in todo && todo[Upgrade] == [] ==>
          Called(calls, Upgrade, Upgrading))
    && (HasNewGeneration(was) && Maintaining in todo && todo[Maintaining] == [] ==>
          Called(calls, Maintaining, Upgrading))
  }

  ghost predicate CallsOk(r: Reconcile) {
    && Replayed(r.was.status.conditions, r.calls, r.now.conditions)
    && CallersOk(r.was, r.todo, r.shared, Missed(r), r.calls)
    && UpgradeCallsOk(r.was, r.todo, r.shared, r.calls)
  }

  ghost predicate ReconcileOk(r: Reconcile) {
    VerdictsOk(r) && TimesOk(r.was, r.todo, Missed(r), r.now.conditions) && CallsOk(r)
    && DutiesOk(r.was, r.todo, r.judged, r.kept, r.now.locks)
  }

  ghost predicate Lawful(was: Stored, now: Stored, w: Writer) {
    && now.name == was.name
    && match w
       case Creation => false
       case Edit => now.status == was.status && now.generation == was.generation + 1
       case LockWrite => now == was.(status := was.status.(locks := now.status.locks))
       case StatusWrite(r) => r.was == was && now == was.(status := r.now) && ReconcileOk(r) && Done(r)
  }

  /** A reconcile in flight, against the history it read from. */
  ghost predicate Fits(hist: seq<Stored>, r: Reconcile) {
    r.snap < |hist| && r.was == hist[r.snap] && ReconcileOk(r)
  }

  ghost predicate Inv(s: State) {
    && |s.hist| == |s.writers| > 0
    && (forall k :: 0 <= k < |s.hist| ==> StoredOk(s.hist[k]))
    && (forall k :: 0 < k < |s.hist| ==> Lawful(s.hist[k - 1], s.hist[k], s.writers[k]))
    && s.hist[0].status.conditions == []
    && forall id :: id in s.recs ==> Fits(s.hist, s.recs[id])
  }

  // ---- Reconcile steps keep the reconcile's part ----

  lemma MarkView(r: Reconcile, kind: ConditionType, verdict: Verdict, clock: nat)
    requires Unique(r.now.conditions)
    ensures var after := AfterMark(r, kind, verdict, clock).conditions;
            Unique(after) && ViewOf(after) == MarkedView(ViewOf(r.now.conditions), kind, verdict)
  {
    var c := Stamped(r.was.status.conditions, Condition(kind, verdict, 0), clock);
    UpdateActsAsMap(r.now.conditions, c, Running);
    UpdateActsAsMap(r.now.conditions, c, Initializing);
    UpdateActsAsMap(r.now.conditions, c, Upgrading);
  }

  /** The two states agree on what has been said again, but perhaps for one type. */
  ghost predicate SaidAlike(was: Stored, todo: Todo, missing: bool, next: Todo, nextMissing: bool,
                            but: Option<ConditionType>) {
    forall kind, v :: but != Some(kind) ==>
      SaidAgain(was, todo, missing, kind, v) == SaidAgain(was, next, nextMissing, kind, v)
  }

  /** After a mark, the times are right if a mark that repeats the snapshot counts as said again. */
  lemma MarkKeepsTimes(r: Reconcile, marked: ConditionType, verdict: Verdict, clock: nat, next: Todo, missing: bool)
    requires Unique(r.now.conditions) && TimesOk(r.was, r.todo, Missed(r), r.now.conditions) && clock > 0
    requires SaidAlike(r.was, r.todo, Missed(r), next, missing, Some(marked))
    requires Says(r.was, marked) == Some(verdict) ==> SaidAgain(r.was, next, missing, marked, verdict)
    ensures TimesOk(r.was, next, missing, AfterMark(r, marked, verdict, clock).conditions)
  {
    var c := Stamped(r.was.status.conditions, Condition(marked, verdict, 0), clock);
    forall kind ensures TimeOk(r.was, next, missing, WithCondition(r.now.conditions, c), kind) {
      assert TimeOk(r.was, r.todo, Missed(r), r.now.conditions, kind);
      UpdateActsAsMap(r.now.conditions, c, kind);
    }
  }

  lemma ForgetKeepsTimes(was: Stored, todo: Todo, missing: bool, now: seq<Condition>, next: Todo, gone: ConditionType)
    requires Unique(now) && TimesOk(was, todo, missing, now) && SaidAlike(was, todo, missing, next, missing, None)
    ensures TimesOk(was, next, missing, WithoutCondition(now, gone))
  {
    forall kind ensures TimeOk(was, next, missing, WithoutCondition(now, gone), kind) {
      assert TimeOk(was, todo, missing, now, kind);
      RemoveActsAsMap(now, gone, kind);
    }
  }

  lemma TimesFrame(was: Stored, todo: Todo, missing: bool, now: seq<Condition>, next: Todo)
    requires TimesOk(was, todo, missing, now) && SaidAlike(was, todo, missing, next, missing, None)
    ensures TimesOk(was, next, missing, now)
  {
    forall kind ensures TimeOk(was, next, missing, now, kind) {
      assert TimeOk(was, todo, missing, now, kind);
    }
  }

  lemma ForgetView(conds: seq<Condition>, kind: ConditionType)
    requires Unique(conds)
    ensures Unique(WithoutCondition(conds, kind))
    ensures ViewOf(WithoutCondition(conds, kind)) == ForgottenView(ViewOf(conds), kind)
  {
    RemoveActsAsMap(conds, kind, Running);
    RemoveActsAsMap(conds, kind, Initializing);
    RemoveActsAsMap(conds, kind, Upgrading);
  }

  lemma RestKeepsPrograms(was: Stored, todo: Todo, shared: Shared, b: Branch)
    requires ProgramsOk(was, todo, shared) && todo[b] != [] && (todo[b][0].Await? ==> shared.Passed?)
    ensures ProgramsOk(was, todo[b := todo[b][1..]], shared)
  {}

  lemma MarkConsistent(was: Stored, todo: Todo, shared: Shared, missing: bool, v: View, b: Branch,
                       kind: ConditionType, verdict: Verdict)
    requires Consistent(was, todo, shared, missing, v) && todo[b] != [] && todo[b][0] == Mark(kind, verdict)
    ensures Consistent(was, todo[b := todo[b][1..]], shared, missing, MarkedView(v, kind, verdict))
  {
    RestKeepsPrograms(was, todo, shared, b);
  }

  lemma ForgetConsistent(was: Stored, todo: Todo, shared: Shared, missing: bool, v: View, b: Branch,
                         kind: ConditionType)
    requires Consistent(was, todo, shared, missing, v) && todo[b] != [] && todo[b][0] == Forget(kind)
    ensures Consistent(was, todo[b := todo[b][1..]], shared, missing, ForgottenView(v, kind))
  {
    RestKeepsPrograms(was, todo, shared, b);
  }

  lemma CallsSnoc(calls: seq<Call>, c: Call, kind: ConditionType)
    ensures LastCall(calls + [c], kind) == if c.kind == kind then Some(c) else LastCall(calls, kind)
  {
    assert (calls + [c])[..|calls|] == calls;
  }

  lemma MarkIsReplayed(was: seq<Condition>, calls: seq<Call>, now: seq<Condition>, b: Branch, kind: ConditionType,
                       verdict: Verdict, clock: nat)
    requires Unique(now) && Replayed(was, calls, now)
    ensures Replayed(was, calls + [Call(b, kind, Some(verdict), clock)],
                     WithCondition(now, Stamped(was, Condition(kind, verdict, 0), clock)))
  {
    var call, c := Call(b, kind, Some(verdict), clock), Stamped(was, Condition(kind, verdict, 0), clock);
    forall k ensures Find(WithCondition(now, c), k) == Replay(was, calls + [call], k) {
      assert Find(now, k) == Replay(was, calls, k);
      UpdateActsAsMap(now, c, k);
      CallsSnoc(calls, call, k);
    }
  }

  lemma ForgetIsReplayed(was: seq<Condition>, calls: seq<Call>, now: seq<Condition>, b: Branch, kind: ConditionType,
                         clock: nat)
    requires Unique(now) && Replayed(was, calls, now)
    ensures Replayed(was, calls + [Call(b, kind, None, clock)], WithoutCondition(now, kind))
  {
    var call := Call(b, kind, None, clock);
    forall k ensures Find(WithoutCondition(now, kind), k) == Replay(was, calls + [call], k) {
      assert Find(now, k) == Replay(was, calls, k);
      RemoveActsAsMap(now, kind, k);
      CallsSnoc(calls, call, k);
    }
  }

  lemma CalledSnoc(calls: seq<Call>, c: Call, b: Branch, kind: ConditionType)
    ensures Called(calls + [c], b, kind) <==> Called(calls, b, kind) || (c.b == b && c.kind == kind)
  {
    assert c in calls + [c];
    if d :| d in calls && d.b == b && d.kind == kind { assert d in calls + [c]; }
  }

  lemma CallersSnoc(was: Stored, todo: Todo, shared: Shared, missing: bool, calls: seq<Call>, c: Call, next: Todo,
                    nextMissing: bool)
    requires CallersOk(was, todo, shared, missing, calls) && Plausible(was, c)
    requires Recovering in todo && Recovering in next
    requires next[Recovering] == todo[Recovering] || (c.b == Recovering && c.kind == Running)
    requires nextMissing == missing || (c.b == Observing && c.kind == Running)
    ensures CallersOk(was, next, shared, nextMissing, calls + [c])
  {
    CalledSnoc(calls, c, Observing, Running);
    CalledSnoc(calls, c, Recovering, Running);
  }

  lemma UpgradeCallsSnoc(was: Stored, todo: Todo, shared: Shared, calls: seq<Call>, c: Call, next: Todo)
    requires UpgradeCallsOk(was, todo, shared, calls) && PlausibleUpgrade(was, c)
    requires Upgrade in todo && Maintaining in todo && Upgrade in next && Maintaining in next
    requires next[Upgrade] == todo[Upgrade] || (c.b == Upgrade && c.kind == Upgrading)
    requires next[Maintaining] == todo[Maintaining] || (c.b == Maintaining && c.kind == Upgrading)
    ensures UpgradeCallsOk(was, next, shared, calls + [c])
  {
    CalledSnoc(calls, c, Upgrade, Upgrading);
    CalledSnoc(calls, c, Maintaining, Upgrading);
  }

  /** What a branch has left to do about Running fits the branch. */
  lemma ActionIsPlausible(was: Stored, todo: Todo, shared: Shared, b: Branch, clock: nat)
    requires ProgramsOk(was, todo, shared) && todo[b] != []
    ensures match todo[b][0]
      case Mark(kind, verdict) =>
        && Plausible(was, Call(b, kind, Some(verdict), clock)) && (b == Recovering ==> kind == Running)
        && PlausibleUpgrade(was, Call(b, kind, Some(verdict), clock))
        && (b == Upgrade || b == Maintaining ==> kind == Upgrading)
      case Forget(kind) => kind == Initializing && b == Starting
      case _ => true
  {
    assert Left(Program(b, was), todo[b]);
  }

  lemma MarkKeepsCalls(r: Reconcile, b: Branch, kind: ConditionType, verdict: Verdict, clock: nat)
    requires VerdictsOk(r) && CallsOk(r) && CanAct(r, b) && r.todo[b][0] == Mark(kind, verdict)
    ensures CallsOk(Acted(r, b, clock))
  {
    ActedFrame(r, b, clock);
    ActionIsPlausible(r.was, r.todo, r.shared, b, clock);
    MarkIsReplayed(r.was.status.conditions, r.calls, r.now.conditions, b, kind, verdict, clock);
    CallersSnoc(r.was, r.todo, r.shared, Missed(r), r.calls, Call(b, kind, Some(verdict), clock),
                r.todo[b := r.todo[b][1..]], Missed(r));
    UpgradeCallsSnoc(r.was, r.todo, r.shared, r.calls, Call(b, kind, Some(verdict), clock),
                     r.todo[b := r.todo[b][1..]]);
  }

  lemma ForgetKeepsCalls(r: Reconcile, b: Branch, kind: ConditionType, clock: nat)
    requires VerdictsOk(r) && CallsOk(r) && CanAct(r, b) && r.todo[b][0] == Forget(kind)
    ensures CallsOk(Acted(r, b, clock))
  {
    ActedFrame(r, b, clock);
    ActionIsPlausible(r.was, r.todo, r.shared, b, clock);
    ForgetIsReplayed(r.was.status.conditions, r.calls, r.now.conditions, b, kind, clock);
    CallersSnoc(r.was, r.todo, r.shared, Missed(r), r.calls, Call(b, kind, None, clock),
                r.todo[b := r.todo[b][1..]], Missed(r));
    UpgradeCallsSnoc(r.was, r.todo, r.shared, r.calls, Call(b, kind, None, clock), r.todo[b := r.todo[b][1..]]);
  }

  lemma AwaitKeepsUpgradeCalls(was: Stored, todo: Todo, shared: Shared, calls: seq<Call>, b: Branch)
    requires ProgramsOk(was, todo, shared) && todo[b] != [] && todo[b][0] == Await
    requires UpgradeCallsOk(was, todo, shared, calls)
    ensures shared.Passed? ==> UpgradeCallsOk(was, todo[b := todo[b][1..]], shared, calls)
    ensures shared.Failed? ==> UpgradeCallsOk(was, todo[b := []], shared, calls)
  {
    assert Left(Program(b, was), todo[b]);
  }

  lemma AwaitKeepsCallers(was: Stored, todo: Todo, shared: Shared, missing: bool, calls: seq<Call>, b: Branch)
    requires ProgramsOk(was, todo, shared) && todo[b] != [] && todo[b][0] == Await
    requires CallersOk(was, todo, shared, missing, calls)
    ensures shared.Passed? ==> CallersOk(was, todo[b := todo[b][1..]], shared, missing, calls)
    ensures shared.Failed? ==> CallersOk(was, todo[b := []], shared, missing, calls)
  {
    assert Left(Program(b, was), todo[b]);
  }

  lemma ActedFrame(r: Reconcile, b: Branch, clock: nat)
    requires CanAct(r, b)
    ensures var after := Acted(r, b, clock);
            after.was == r.was && after.snap == r.snap && after.shared == r.shared && Missed(after) == Missed(r)
            && after.now.observedGeneration == r.now.observedGeneration
  {}

  /** Looking and releasing is left to their own steps. */
  lemma ActKeepsDuties(r: Reconcile, b: Branch, clock: nat)
    requires ProgramsOk(r.was, r.todo, r.shared) && CanAct(r, b)
    requires DutiesOk(r.was, r.todo, r.judged, r.kept, r.now.locks)
    ensures var after := Acted(r, b, clock);
            DutiesOk(after.was, after.todo, after.judged, after.kept, after.now.locks)
  {
    assert Left(Program(b, r.was), r.todo[b]);
  }

  /** Only the maintaining branch marks what its snapshot may say already. */
  lemma MarkSaysAgain(was: Stored, todo: Todo, shared: Shared, missing: bool, b: Branch,
                      kind: ConditionType, verdict: Verdict)
    requires ProgramsOk(was, todo, shared) && todo[b] != [] && todo[b][0] == Mark(kind, verdict)
    ensures SaidAlike(was, todo, missing, todo[b := todo[b][1..]], missing, Some(kind))
    ensures Says(was, kind) == Some(verdict) ==> SaidAgain(was, todo[b := todo[b][1..]], missing, kind, verdict)
  {
    assert Left(Program(b, was), todo[b]);
  }

  lemma OthersSayNothing(was: Stored, todo: Todo, shared: Shared, missing: bool, b: Branch, rest: seq<Action>)
    requires ProgramsOk(was, todo, shared) && todo[b] != [] && !todo[b][0].Mark?
    ensures SaidAlike(was, todo, missing, todo[b := rest], missing, None)
  {
    assert Left(Program(b, was), todo[b]);
  }

  lemma MarkKeepsVerdicts(r: Reconcile, b: Branch, kind: ConditionType, verdict: Verdict, clock: nat)
    requires VerdictsOk(r) && CanAct(r, b) && r.todo[b][0] == Mark(kind, verdict)
    ensures VerdictsOk(Acted(r, b, clock))
  {
    ActedFrame(r, b, clock);
    MarkView(r, kind, verdict, clock);
    MarkConsistent(r.was, r.todo, r.shared, Missed(r), ViewOf(r.now.conditions), b, kind, verdict);
  }

  lemma MarkKeepsOk(r: Reconcile, b: Branch, kind: ConditionType, verdict: Verdict, clock: nat)
    requires ReconcileOk(r) && CanAct(r, b) && r.todo[b][0] == Mark(kind, verdict) && clock > 0
    ensures ReconcileOk(Acted(r, b, clock))
  {
    ActKeepsDuties(r, b, clock);
    MarkKeepsVerdicts(r, b, kind, verdict, clock);
    MarkKeepsCalls(r, b, kind, verdict, clock);
    ActedFrame(r, b, clock);
    MarkSaysAgain(r.was, r.todo, r.shared, Missed(r), b, kind, verdict);
    MarkKeepsTimes(r, kind, verdict, clock, r.todo[b := r.todo[b][1..]], Missed(r));
  }

  lemma ForgetKeepsVerdicts(r: Reconcile, b: Branch, kind: ConditionType, clock: nat)
    requires VerdictsOk(r) && CanAct(r, b) && r.todo[b][0] == Forget(kind)
    ensures VerdictsOk(Acted(r, b, clock))
  {
    ActedFrame(r, b, clock);
    ForgetView(r.now.conditions, kind);
    ForgetConsistent(r.was, r.todo, r.shared, Missed(r), ViewOf(r.now.conditions), b, kind);
  }

  lemma ForgetKeepsOk(r: Reconcile, b: Branch, kind: ConditionType, clock: nat)
    requires ReconcileOk(r) && CanAct(r, b) && r.todo[b][0] == Forget(kind)
    ensures ReconcileOk(Acted(r, b, clock))
  {
    ActKeepsDuties(r, b, clock);
    ForgetKeepsVerdicts(r, b, kind, clock);
    ForgetKeepsCalls(r, b, kind, clock);
    ActedFrame(r, b, clock);
    OthersSayNothing(r.was, r.todo, r.shared, Missed(r), b, r.todo[b][1..]);
    ForgetKeepsTimes(r.was, r.todo, Missed(r), r.now.conditions, r.todo[b := r.todo[b][1..]], kind);
  }

  lemma AwaitKeepsVerdicts(r: Reconcile, b: Branch, clock: nat)
    requires VerdictsOk(r) && CanAct(r, b) && r.todo[b][0] == Await
    ensures VerdictsOk(Acted(r, b, clock))
  {
    ActedFrame(r, b, clock);
    AwaitConsistent(r.was, r.todo, r.shared, Missed(r), ViewOf(r.now.conditions), b);
  }

  lemma AwaitKeepsOk(r: Reconcile, b: Branch, clock: nat)
    requires ReconcileOk(r) && CanAct(r, b) && r.todo[b][0] == Await
    ensures ReconcileOk(Acted(r, b, clock))
  {
    ActKeepsDuties(r, b, clock);
    AwaitKeepsVerdicts(r, b, clock);
    AwaitKeepsCallers(r.was, r.todo, r.shared, Missed(r), r.calls, b);
    AwaitKeepsUpgradeCalls(r.was, r.todo, r.shared, r.calls, b);
    ActedFrame(r, b, clock);
    var rest := if r.shared.Passed? then r.todo[b][1..] else [];
    OthersSayNothing(r.was, r.todo, r.shared, Missed(r), b, rest);
    TimesFrame(r.was, r.todo, Missed(r), r.now.conditions, r.todo[b := rest]);
  }

  lemma AwaitConsistent(was: Stored, todo: Todo, shared: Shared, missing: bool, v: View, b: Branch)
    requires Consistent(was, todo, shared, missing, v) && todo[b] != [] && todo[b][0] == Await
    ensures shared.Passed? ==> Consistent(was, todo[b := todo[b][1..]], shared, missing, v)
    ensures shared.Failed? ==> Consistent(was, todo[b := []], shared, missing, v)
  {
    if shared.Passed? { RestKeepsPrograms(was, todo, shared, b); }
  }

  lemma ActKeepsOk(r: Reconcile, b: Branch, clock: nat)
    requires ReconcileOk(r) && CanAct(r, b) && clock > 0
    ensures ReconcileOk(Acted(r, b, clock))
  {
    match r.todo[b][0]
    case Mark(kind, verdict) => MarkKeepsOk(r, b, kind, verdict, clock);
    case Forget(kind) => ForgetKeepsOk(r, b, kind, clock);
    case _ => AwaitKeepsOk(r, b, clock);
  }

  lemma JudgeConsistent(was: Stored, todo: Todo, shared: Shared, v: View)
    requires Consistent(was, todo, shared, false, v) && todo[Observing] == [Judge]
    ensures Consistent(was, todo[Observing := []], shared, false, v)
    ensures Consistent(was, todo[Observing := []], shared, true, MarkedView(v, Running, No))
  {
    assert todo[Observing][1..] == [];
    RestKeepsPrograms(was, todo, shared, Observing);
  }

  lemma JudgeKeepsVerdicts(r: Reconcile, seen: Option<Seen>, clock: nat)
    requires VerdictsOk(r) && r.todo[Observing] == [Judge] && r.judged.Pending?
    ensures VerdictsOk(Judged(r, seen, clock))
  {
    MarkView(r, Running, No, clock);
    JudgeConsistent(r.was, r.todo, r.shared, ViewOf(r.now.conditions));
  }

  lemma JudgeKeepsCalls(r: Reconcile, seen: Option<Seen>, clock: nat)
    requires VerdictsOk(r) && CallsOk(r) && r.todo[Observing] == [Judge] && r.judged.Pending?
    ensures CallsOk(Judged(r, seen, clock))
  {
    if seen.Some? && SeesMissing(r.was, seen.value) {
      MarkIsReplayed(r.was.status.conditions, r.calls, r.now.conditions, Observing, Running, No, clock);
      CallersSnoc(r.was, r.todo, r.shared, Missed(r), r.calls, Call(Observing, Running, Some(No), clock),
                  r.todo[Observing := []], true);
      UpgradeCallsSnoc(r.was, r.todo, r.shared, r.calls, Call(Observing, Running, Some(No), clock),
                    r.todo[Observing := []]);
    }
  }

  lemma JudgeKeepsOk(r: Reconcile, seen: Option<Seen>, clock: nat)
    requires ReconcileOk(r) && r.todo[Observing] == [Judge] && clock > 0
    ensures ReconcileOk(Judged(r, seen, clock))
  {
    JudgeKeepsVerdicts(r, seen, clock);
    JudgeKeepsCalls(r, seen, clock);
    JudgeKeepsTimes(r, seen, clock);
    JudgedFrame(r, seen, clock);
  }

  lemma JudgedFrame(r: Reconcile, seen: Option<Seen>, clock: nat)
    ensures var after := Judged(r, seen, clock);
            && after.was == r.was && after.todo == r.todo[Observing := []] && after.kept == r.kept
            && after.judged == ReadingOf(seen) && after.now.locks == r.now.locks
  {}

  lemma JudgeKeepsTimes(r: Reconcile, seen: Option<Seen>, clock: nat)
    requires Unique(r.now.conditions) && ProgramsOk(r.was, r.todo, r.shared) && r.todo[Observing] == [Judge]
    requires TimesOk(r.was, r.todo, false, r.now.conditions) && r.judged.Pending? && clock > 0
    ensures var after := Judged(r, seen, clock);
            TimesOk(after.was, after.todo, Missed(after), after.now.conditions)
  {
    OthersSayNothing(r.was, r.todo, r.shared, false, Observing, []);
    if seen.Some? && SeesMissing(r.was, seen.value) {
      MarkKeepsTimes(r, Running, No, clock, r.todo[Observing := []], true);
    } else {
      TimesFrame(r.was, r.todo, false, r.now.conditions, r.todo[Observing := []]);
    }
  }

  lemma BeginIsOk(hist: seq<Stored>, snap: nat)
    requires snap < |hist| && StoredOk(hist[snap])
    ensures ReconcileOk(Begin(hist, snap))
  {
    BeginHasPrograms(hist, snap);
    BeginIsConsistent(hist, snap);
    BeginHasTimes(hist, snap);
    BeginHasCalls(hist, snap);
  }

  lemma BeginHasPrograms(hist: seq<Stored>, snap: nat)
    requires snap < |hist|
    ensures var r := Begin(hist, snap);
            && r.was == hist[snap] && r.now == r.was.status && r.calls == [] && r.shared.Idle? && !Missed(r)
            && (forall b: Branch :: b in r.todo && r.todo[b] == Program(b, r.was))
            && ProgramsOk(r.was, r.todo, r.shared) && DutiesOk(r.was, r.todo, r.judged, r.kept, r.now.locks)
  {}

  lemma BeginIsConsistent(hist: seq<Stored>, snap: nat)
    requires snap < |hist| && StoredOk(hist[snap])
    ensures VerdictsOk(Begin(hist, snap))
  {
    BeginHasPrograms(hist, snap);
  }

  lemma BeginHasTimes(hist: seq<Stored>, snap: nat)
    requires snap < |hist|
    ensures var r := Begin(hist, snap); TimesOk(r.was, r.todo, false, r.now.conditions)
  {
    BeginHasPrograms(hist, snap);
  }

  lemma BeginHasCalls(hist: seq<Stored>, snap: nat)
    requires snap < |hist|
    ensures CallsOk(Begin(hist, snap))
  {
    BeginHasPrograms(hist, snap);
  }

  lemma DoneIsOk(r: Reconcile)
    requires ReconcileOk(r) && Done(r)
    ensures StoredOk(r.was.(status := r.now))
  {}

  // ---- Every step keeps the invariant ----

  lemma RecordsKept(s: State, id: nat, r: Reconcile)
    requires Inv(s) && Fits(s.hist, r)
    ensures Inv(s.(recs := s.recs[id := r]))
  {}

  lemma WriteKeepsInv(s: State, next: Stored, w: Writer)
    requires Inv(s) && StoredOk(next) && Lawful(s.hist[|s.hist| - 1], next, w)
    ensures Inv(Write(s, s.hist + [next], w))
  {
    var t := Write(s, s.hist + [next], w);
    forall id | id in t.recs ensures Fits(t.hist, t.recs[id]) { assert Fits(s.hist, t.recs[id]); }
    forall k | 0 < k < |t.hist| ensures Lawful(t.hist[k - 1], t.hist[k], t.writers[k]) {
      if k < |s.hist| { assert Lawful(s.hist[k - 1], s.hist[k], s.writers[k]); }
    }
  }

  lemma CommitKeepsInv(s: State, snap: nat, now: Status, w: Writer)
    requires Inv(s) && snap < |s.hist| && StoredOk(s.hist[snap].(status := now))
    requires Lawful(s.hist[snap], s.hist[snap].(status := now), w)
    ensures Inv(Write(s, Commit(s.hist, snap, now), w))
  {
    if now != s.hist[snap].status && snap == |s.hist| - 1 {
      WriteKeepsInv(s, s.hist[snap].(status := now), w);
    }
  }

  lemma ActFits(hist: seq<Stored>, r: Reconcile, b: Branch, clock: nat)
    requires Fits(hist, r) && CanAct(r, b) && clock > 0
    ensures Fits(hist, Acted(r, b, clock))
  {
    ActKeepsOk(r, b, clock);
    ActedFrame(r, b, clock);
  }

  lemma JudgeFits(hist: seq<Stored>, r: Reconcile, seen: Option<Seen>, clock: nat)
    requires Fits(hist, r) && r.todo[Observing] == [Judge] && clock > 0
    ensures Fits(hist, Judged(r, seen, clock))
  {
    JudgeKeepsOk(r, seen, clock);
  }

  lemma SweepKeepsVerdicts(r: Reconcile, kept: Option<seq<Lock>>)
    requires VerdictsOk(r) && r.todo[Releasing] == [Sweep]
    ensures VerdictsOk(Swept(r, kept))
  {
    assert r.todo[Releasing][1..] == [];
    RestKeepsPrograms(r.was, r.todo, r.shared, Releasing);
  }

  lemma SweepFits(hist: seq<Stored>, r: Reconcile, kept: Option<seq<Lock>>)
    requires Fits(hist, r) && r.todo[Releasing] == [Sweep]
    ensures Fits(hist, Swept(r, kept))
  {
    SweepKeepsVerdicts(r, kept);
    OthersSayNothing(r.was, r.todo, r.shared, Missed(r), Releasing, []);
    TimesFrame(r.was, r.todo, Missed(r), r.now.conditions, r.todo[Releasing := []]);
  }

  lemma OpenFits(hist: seq<Stored>, r: Reconcile)
    requires Fits(hist, r) && r.shared.Idle?
    ensures Fits(hist, Opened(r))
  {}

  lemma CloseFits(hist: seq<Stored>, r: Reconcile, sight: Option<Sight>)
    requires Fits(hist, r) && r.shared.Working? && (sight.Some? ==> AllProceed(r.was, sight.value))
    ensures Fits(hist, Closed(r, sight))
  {}

  lemma FinishIsKept(s: State, id: nat)
    requires Inv(s) && Enabled(s, Finish(id))
    ensures Inv(Apply(s, Finish(id)))
  {
    var r := s.recs[id];
    DoneIsOk(r);
    assert Lawful(r.was, r.was.(status := r.now), StatusWrite(r));
    CommitKeepsInv(s.(recs := s.recs - {id}), r.snap, r.now, StatusWrite(r));
  }

  /** Steps inside one reconcile. */
  lemma LocalStepKeepsInv(s: State, step: Step)
    requires Inv(s) && Enabled(s, step)
    requires step.Act? || step.Observe? || step.Release? || step.OpenShared? || step.CloseShared?
    ensures Inv(Apply(s, step))
  {
    var id, r := step.id, s.recs[step.id];
    match step
    case Act(_, b, clock) =>
      ActFits(s.hist, r, b, clock);
      RecordsKept(s, id, Acted(r, b, clock));
    case Observe(_, seen, clock) =>
      JudgeFits(s.hist, r, seen, clock);
      RecordsKept(s, id, Judged(r, seen, clock));
    case Release(_, kept) =>
      SweepFits(s.hist, r, kept);
      RecordsKept(s, id, Swept(r, kept));
    case OpenShared(_) =>
      OpenFits(s.hist, r);
      RecordsKept(s, id, Opened(r));
    case CloseShared(_, sight) =>
      CloseFits(s.hist, r, sight);
      RecordsKept(s, id, Closed(r, sight));
  }

  lemma EditIsKept(s: State, components: Components)
    requires Inv(s) && Enabled(s, EditSpec(components))
    ensures Inv(Apply(s, EditSpec(components)))
  {
    var cur := s.hist[|s.hist| - 1];
    EditIsLawful(cur, components);
    WriteKeepsInv(s, cur.(components := components, generation := cur.generation + 1), Edit);
  }

  lemma EditIsLawful(cur: Stored, components: Components)
    requires StoredOk(cur)
    ensures var next := cur.(components := components, generation := cur.generation + 1);
            StoredOk(next) && Lawful(cur, next, Edit)
  {}

  lemma WriteLocksIsKept(s: State, snap: nat, locks: seq<Lock>)
    requires Inv(s) && Enabled(s, WriteLocks(snap, locks))
    ensures Inv(Apply(s, WriteLocks(snap, locks)))
  {
    CommitKeepsInv(s, snap, s.hist[snap].status.(locks := locks), LockWrite);
  }

  lemma StartIsKept(s: State, id: nat, snap: nat)
    requires Inv(s) && Enabled(s, Start(id, snap))
    ensures Inv(Apply(s, Start(id, snap)))
  {
    BeginIsOk(s.hist, snap);
    RecordsKept(s, id, Begin(s.hist, snap));
  }

  lemma StepKeepsInv(s: State, step: Step)
    requires Inv(s) && Enabled(s, step)
    ensures Inv(Apply(s, step))
  {
    match step
    case EditSpec(components) => EditIsKept(s, components);
    case WriteLocks(snap, locks) => WriteLocksIsKept(s, snap, locks);
    case Start(id, snap) => StartIsKept(s, id, snap);
    case Finish(id) => FinishIsKept(s, id);
    case _ => LocalStepKeepsInv(s, step);
  }

  lemma InvOverRuns(run: seq<State>, steps: seq<Step>, i: nat)
    requires IsRun(run, steps) && i < |run|
    ensures Inv(run[i])
  {
    for k := 0 to i
      invariant Inv(run[k])
    {
      StepKeepsInv(run[k], steps[k]);
    }
  }

  // ---- Over all runs ----

  /** Types stay unique; once there are conditions Running is among them for good; while the cluster
      is initializing it is not running. */
  lemma ConditionsOverRuns(run: seq<State>, steps: seq<Step>, i: nat, k: nat)
    requires IsRun(run, steps) && i < |run| && k < |run[i].hist|
    ensures var conds := run[i].hist[k].status.conditions;
            && Unique(conds)
            && (conds != [] ==> Get(conds, Running).Some?)
            && (Get(conds, Initializing).Some? ==> Get(conds, Running) == Some(No))
  {
    InvOverRuns(run, steps, i);
  }

  lemma OneWrite(was: Stored, now: Stored, w: Writer)
    requires StoredOk(was) && Lawful(was, now, w)
    ensures was.status.conditions != [] ==> now.status.conditions != []
    ensures was.status.conditions != [] && Says(was, Initializing).None? ==> Says(now, Initializing).None?
    ensures was.status.observedGeneration <= now.status.observedGeneration
  {}

  /** Initializing, once removed, never returns, and conditions never become empty again. */
  lemma {:induction false} InitializingNeverReturns(run: seq<State>, steps: seq<Step>, i: nat, k: nat, later: nat)
    requires IsRun(run, steps) && i < |run| && k <= later < |run[i].hist|
    requires run[i].hist[k].status.conditions != [] && Says(run[i].hist[k], Initializing).None?
    ensures run[i].hist[later].status.conditions != [] && Says(run[i].hist[later], Initializing).None?
    decreases later
  {
    if k < later {
      InitializingNeverReturns(run, steps, i, k, later - 1);
      InvOverRuns(run, steps, i);
      OneWrite(run[i].hist[later - 1], run[i].hist[later], WriterOf(run[i], later));
    }
  }

  /** Written with the current generation observed, after a barrier that passed. */
  ghost predicate WrittenWhenReady(now: Stored, w: Writer) {
    && now.status.observedGeneration == now.generation
    && w.StatusWrite? && w.r.shared.Passed? && AllProceed(now, w.r.shared.sight)
  }

  /** Running turns on only in a status that has observed the current generation, written by a
      reconcile whose barrier saw every workload of every component ready, at a generation at least
      this one, and no group missing. */
  lemma RunningTurnsOnOnlyWhenReady(run: seq<State>, steps: seq<Step>, i: nat, k: nat)
    requires IsRun(run, steps) && i < |run| && 0 < k < |run[i].hist|
    requires Says(run[i].hist[k - 1], Running) != Some(Yes) && Says(run[i].hist[k], Running) == Some(Yes)
    ensures WrittenWhenReady(run[i].hist[k], WriterOf(run[i], k)) && Says(run[i].hist[k], Initializing).None?
    ensures AllRolledOut(run[i].hist[k], WriterOf(run[i], k).r.shared.sight)
  {
    InvOverRuns(run, steps, i);
    var was, now, w := run[i].hist[k - 1], run[i].hist[k], WriterOf(run[i], k);
    assert Lawful(was, now, w);
    assert TargetsAgree(was, now);
    PassedIsRolledOut(now, w.r.shared.sight);
  }

  /** Every workload seen has rolled out at the generation of the object or carries none, and belongs to a node group;
      every node group has a workload. */
  ghost predicate AllRolledOut(o: Stored, sight: Sight) {
    forall c: Component ::
      && (forall w :: w in sight.Get(c) ==>
            && w.rolledOut && (w.workload.stamp.NoSync? || w.workload.stamp.number >= o.generation)
            && exists g :: g in o.components.Get(c) && g.name == w.workload.group)
      && forall g :: g in o.components.Get(c) ==> exists w :: w in sight.Get(c) && w.workload.group == g.name
  }

  /** The barrier over all components opens exactly then. */
  lemma PassedIsRolledOut(o: Stored, sight: Sight)
    ensures AllProceed(o, sight) <==> AllRolledOut(o, sight)
  {
    forall c: Component
      ensures Proceeds(TargetOf(o, c), sight.Get(c)) <==>
        (forall w :: w in sight.Get(c) ==> RolledOutAt(o.generation, w)
                                           && exists g :: g in o.components.Get(c) && g.name == w.workload.group)
        && forall g :: g in o.components.Get(c) ==> exists w :: w in sight.Get(c) && w.workload.group == g.name
    {
      BarrierOpensExactly(TargetOf(o, c), sight.Get(c));
      forall g | g in o.components.Get(c) ensures g.name in TargetOf(o, c).expected {}
      forall n | n in TargetOf(o, c).expected ensures exists g :: g in o.components.Get(c) && g.name == n {}
    }
  }

  ghost predicate TargetsAgree(was: Stored, now: Stored) {
    forall c: Component :: TargetOf(was, c) == TargetOf(now, c)
  }

  /** Whoever gives a cluster its first status, or leaves one behind when there was none, marks it as
      initializing and not running. */
  lemma FirstStatusInitializes(run: seq<State>, steps: seq<Step>, i: nat, k: nat)
    requires IsRun(run, steps) && i < |run| && 0 < k < |run[i].hist|
    requires run[i].hist[k - 1].status.conditions == []
    requires WriterOf(run[i], k).StatusWrite? || run[i].hist[k].status.conditions != []
    ensures Says(run[i].hist[k], Initializing) == Some(Yes) && Says(run[i].hist[k], Running) == Some(No)
  {
    InvOverRuns(run, steps, i);
    assert Lawful(run[i].hist[k - 1], run[i].hist[k], WriterOf(run[i], k));
  }

  lemma StatusWriteLeavesRunning(run: seq<State>, steps: seq<Step>, i: nat, k: nat)
    requires IsRun(run, steps) && i < |run| && 0 < k < |run[i].hist| && WriterOf(run[i], k).StatusWrite?
    ensures Says(run[i].hist[k], Running).Some?
  {
    InvOverRuns(run, steps, i);
    assert Lawful(run[i].hist[k - 1], run[i].hist[k], WriterOf(run[i], k));
  }

  lemma ConditionsStay(run: seq<State>, steps: seq<Step>, i: nat, k: nat)
    requires IsRun(run, steps) && i < |run| && k + 1 < |run[i].hist| && run[i].hist[k].status.conditions != []
    ensures run[i].hist[k + 1].status.conditions != []
  {
    InvOverRuns(run, steps, i);
    OneWrite(run[i].hist[k], run[i].hist[k + 1], WriterOf(run[i], k + 1));
  }

  /** After the first status write of a reconcile Running is always present. */
  lemma RunningIsHereToStay(run: seq<State>, steps: seq<Step>, i: nat, k: nat, later: nat)
    requires IsRun(run, steps) && i < |run| && 0 < k <= later < |run[i].hist| && WriterOf(run[i], k).StatusWrite?
    ensures Says(run[i].hist[later], Running).Some?
  {
    StatusWriteLeavesRunning(run, steps, i, k);
    for h := k to later
      invariant run[i].hist[h].status.conditions != []
    {
      ConditionsStay(run, steps, i, h);
    }
    ConditionsOverRuns(run, steps, i, later);
  }

  /** Initializing is removed, and Upgrading is taken back, by the same evidence only. */
  lemma PhasesEndOnlyWhenReady(run: seq<State>, steps: seq<Step>, i: nat, k: nat)
    requires IsRun(run, steps) && i < |run| && 0 < k < |run[i].hist|
    requires (Says(run[i].hist[k - 1], Initializing).Some? && Says(run[i].hist[k], Initializing).None?)
             || (Says(run[i].hist[k - 1], Upgrading) == Some(Yes) && Says(run[i].hist[k], Upgrading) != Some(Yes))
    ensures WrittenWhenReady(run[i].hist[k], WriterOf(run[i], k))
  {
    InvOverRuns(run, steps, i);
    assert Lawful(run[i].hist[k - 1], run[i].hist[k], WriterOf(run[i], k));
    assert TargetsAgree(run[i].hist[k - 1], run[i].hist[k]);
  }

  /** Upgrading begins only for a running cluster with a generation nobody has synced yet. */
  lemma UpgradingStartsOnlyForNewGeneration(run: seq<State>, steps: seq<Step>, i: nat, k: nat)
    requires IsRun(run, steps) && i < |run| && 0 < k < |run[i].hist|
    requires Says(run[i].hist[k - 1], Upgrading) != Some(Yes) && Says(run[i].hist[k], Upgrading) == Some(Yes)
    ensures Says(run[i].hist[k - 1], Running) == Some(Yes)
    ensures run[i].hist[k - 1].status.observedGeneration < run[i].hist[k - 1].generation
  {
    InvOverRuns(run, steps, i);
    assert Lawful(run[i].hist[k - 1], run[i].hist[k], WriterOf(run[i], k));
  }

  /** The write of a reconcile that found a service, the configuration or an expected group missing. */
  ghost predicate WrittenAfterMissing(was: Stored, w: Writer) {
    w.StatusWrite? && w.r.judged.Read? && SeesMissing(was, w.r.judged.value)
  }

  /** Running turns off in exactly the writes of reconciles that saw something missing. */
  lemma RunningTurnsOffExactlyWhenMissing(run: seq<State>, steps: seq<Step>, i: nat, k: nat)
    requires IsRun(run, steps) && i < |run| && 0 < k < |run[i].hist|
    requires Says(run[i].hist[k - 1], Running) == Some(Yes)
    ensures var was, now, w := run[i].hist[k - 1], run[i].hist[k], WriterOf(run[i], k);
            && (Says(now, Running) == Some(No) <==> WrittenAfterMissing(was, w))
            && (Says(now, Running) == Some(Yes) <==> !WrittenAfterMissing(was, w))
  {
    InvOverRuns(run, steps, i);
    assert Lawful(run[i].hist[k - 1], run[i].hist[k], WriterOf(run[i], k));
  }

  /** A reconcile that finds the cluster not running and nothing missing turns Running on exactly if its
      barrier passed; without a passed barrier it never does. */
  lemma RunningRecoversExactly(run: seq<State>, steps: seq<Step>, i: nat, k: nat)
    requires IsRun(run, steps) && i < |run| && 0 < k < |run[i].hist| && WriterOf(run[i], k).StatusWrite?
    requires Says(run[i].hist[k - 1], Running) == Some(No)
    ensures var was, now, w := run[i].hist[k - 1], run[i].hist[k], WriterOf(run[i], k);
            && (!WrittenAfterMissing(was, w) ==> (Says(now, Running) == Some(Yes) <==> w.r.shared.Passed?))
            && (!w.r.shared.Passed? ==> Says(now, Running) == Some(No))
  {
    InvOverRuns(run, steps, i);
    assert Lawful(run[i].hist[k - 1], run[i].hist[k], WriterOf(run[i], k));
  }

  /** The last branch to call decides whether a cluster that was not running is: the recovering branch
      leaves Running on, the one that found something missing leaves it off, and both have called if the
      barrier passed and something was missing. */
  lemma LastBranchDecides(run: seq<State>, steps: seq<Step>, i: nat, k: nat)
    requires IsRun(run, steps) && i < |run| && 0 < k < |run[i].hist| && WriterOf(run[i], k).StatusWrite?
    requires Says(run[i].hist[k - 1], Running) == Some(No)
    ensures var was, now, w := run[i].hist[k - 1], run[i].hist[k], WriterOf(run[i], k);
      && (WrittenAfterMissing(was, w) && w.r.shared.Passed? ==>
            Called(w.r.calls, Recovering, Running) && Called(w.r.calls, Observing, Running))
      && match LastCall(w.r.calls, Running)
         case None => Says(now, Running) == Some(No)
         case Some(c) =>
           if c.b == Recovering then Says(now, Running) == Some(Yes)
           else c.b == Observing && Says(now, Running) == Some(No)
  {
    InvOverRuns(run, steps, i);
    var r := WriterOf(run[i], k).r;
    assert Lawful(run[i].hist[k - 1], run[i].hist[k], WriterOf(run[i], k));
    assert Find(r.now.conditions, Running) == Replay(r.was.status.conditions, r.calls, Running);
  }

  /** From a cluster that is upgrading, a reconcile takes Upgrading back exactly if its barrier passed, unless there is
      again a generation nobody has synced: then the maintaining branch has called too, and the last call decides. */
  lemma UpgradingEndsExactly(run: seq<State>, steps: seq<Step>, i: nat, k: nat)
    requires IsRun(run, steps) && i < |run| && 0 < k < |run[i].hist| && WriterOf(run[i], k).StatusWrite?
    requires Says(run[i].hist[k - 1], Upgrading) == Some(Yes)
    ensures var was, now, w := run[i].hist[k - 1], run[i].hist[k], WriterOf(run[i], k);
      && Says(now, Upgrading) == Some(if EndsUpgrading(was, w) then No else Yes)
      && (EndsUpgrading(was, w) ==> w.r.shared.Passed?)
      && (!(Says(was, Running) == Some(Yes) && was.status.observedGeneration < was.generation) ==>
            (EndsUpgrading(was, w) <==> w.r.shared.Passed?))
      && (Says(was, Running) == Some(Yes) && was.status.observedGeneration < was.generation ==>
            && Called(w.r.calls, Maintaining, Upgrading)
            && (w.r.shared.Passed? ==> Called(w.r.calls, Upgrade, Upgrading)))
  {
    InvOverRuns(run, steps, i);
    UpgradingAfterWrite(run[i].hist[k - 1], run[i].hist[k], WriterOf(run[i], k));
  }

  /** The last call about Upgrading is the upgrading branch's. */
  ghost predicate EndsUpgrading(was: Stored, w: Writer)
    requires w.StatusWrite?
  {
    LastCall(w.r.calls, Upgrading).Some? && LastCall(w.r.calls, Upgrading).value.b == Upgrade
  }

  /** What the calls leave of Upgrading. */
  ghost predicate UpgradeDecided(was: Stored, now: Option<Verdict>, calls: seq<Call>) {
    match LastCall(calls, Upgrading)
    case None => now == Says(was, Upgrading)
    case Some(c) =>
      if c.b == Upgrade then now == Some(No) && Says(was, Upgrading) == Some(Yes)
      else c.b == Maintaining && now == Some(Yes) && HasNewGeneration(was)
  }

  lemma LastCallDecidesUpgrade(was: Stored, now: seq<Condition>, calls: seq<Call>)
    requires Replayed(was.status.conditions, calls, now) && forall c :: c in calls ==> PlausibleUpgrade(was, c)
    ensures UpgradeDecided(was, Get(now, Upgrading), calls)
  {
    assert Find(now, Upgrading) == Replay(was.status.conditions, calls, Upgrading);
  }

  lemma UpgradingAfterWrite(was: Stored, now: Stored, w: Writer)
    requires Lawful(was, now, w) && w.StatusWrite?
    ensures HasNewGeneration(was) ==> Called(w.r.calls, Maintaining, Upgrading)
    ensures Says(was, Upgrading) == Some(Yes) && !w.r.shared.Failed? ==> Called(w.r.calls, Upgrade, Upgrading)
    ensures Says(was, Upgrading) == Some(Yes) && Says(now, Upgrading) != Some(Yes) ==> w.r.shared.Passed?
    ensures UpgradeDecided(was, Says(now, Upgrading), w.r.calls)
  {
    LastCallDecidesUpgrade(was, w.r.now.conditions, w.r.calls);
  }

  /** From a cluster that is not, a reconcile marks Upgrading exactly if the cluster runs and has a generation that
      nobody has synced; otherwise it leaves Upgrading as it was. */
  lemma UpgradingStartsExactly(run: seq<State>, steps: seq<Step>, i: nat, k: nat)
    requires IsRun(run, steps) && i < |run| && 0 < k < |run[i].hist| && WriterOf(run[i], k).StatusWrite?
    requires Says(run[i].hist[k - 1], Upgrading) != Some(Yes)
    ensures var was, now := run[i].hist[k - 1], run[i].hist[k];
            Says(now, Upgrading) ==
            if Says(was, Running) == Some(Yes) && was.status.observedGeneration < was.generation then Some(Yes)
            else Says(was, Upgrading)
  {
    InvOverRuns(run, steps, i);
    UpgradingAfterWrite(run[i].hist[k - 1], run[i].hist[k], WriterOf(run[i], k));
  }

  /** From a cluster that is initializing, a reconcile removes Initializing exactly if its barrier passed, and
      otherwise leaves it. */
  lemma InitializingEndsExactly(run: seq<State>, steps: seq<Step>, i: nat, k: nat)
    requires IsRun(run, steps) && i < |run| && 0 < k < |run[i].hist| && WriterOf(run[i], k).StatusWrite?
    requires Says(run[i].hist[k - 1], Initializing).Some?
    ensures var now, w := run[i].hist[k], WriterOf(run[i], k);
            Says(now, Initializing) == if w.r.shared.Passed? then None else Some(Yes)
  {
    InvOverRuns(run, steps, i);
    assert Lawful(run[i].hist[k - 1], run[i].hist[k], WriterOf(run[i], k));
  }

  /** No reconcile writes a status without having looked for missing parts and gone through the lock records, and the
      records it writes are those it kept, or the ones it read if an owner could not be read. */
  lemma StatusWriteHasLookedAndReleased(run: seq<State>, steps: seq<Step>, i: nat, k: nat)
    requires IsRun(run, steps) && i < |run| && 0 < k < |run[i].hist| && WriterOf(run[i], k).StatusWrite?
    ensures var was, now, r := run[i].hist[k - 1], run[i].hist[k], WriterOf(run[i], k).r;
            && !r.judged.Pending? && !r.kept.Pending?
            && now.status.locks == if r.kept.Read? then r.kept.value else was.status.locks
  {
    InvOverRuns(run, steps, i);
    assert Lawful(run[i].hist[k - 1], run[i].hist[k], WriterOf(run[i], k));
  }

  /** The snapshot already says what this write marks: not running while something is still missing, or
      upgrading while there is again a generation nobody has synced. */
  ghost predicate LosesTime(was: Stored, w: Writer, kind: ConditionType) {
    || (kind == Running && Says(was, Running) == Some(No) && WrittenAfterMissing(was, w))
    || (kind == Upgrading && Says(was, Upgrading) == Some(Yes) && Says(was, Running) == Some(Yes)
        && was.status.observedGeneration < was.generation)
  }

  lemma ChangedSinceCall(was: seq<Condition>, calls: seq<Call>, now: seq<Condition>, kind: ConditionType)
    requires Replayed(was, calls, now) && Get(now, kind).Some? && Get(now, kind) != Get(was, kind)
    ensures LastCall(calls, kind).Some? && Since(now, kind) == LastCall(calls, kind).value.clock
  {
    assert Find(now, kind) == Replay(was, calls, kind);
  }

  lemma TimesOfWrite(was: Stored, now: Stored, w: Writer, kind: ConditionType)
    requires Lawful(was, now, w) && w.StatusWrite? && Says(now, kind).Some?
    ensures Says(now, kind) != Says(was, kind) ==> Since(now.status.conditions, kind) > 0
    ensures Says(now, kind) == Says(was, kind) ==>
              Since(now.status.conditions, kind) ==
              if LosesTime(was, w, kind) then 0 else Since(was.status.conditions, kind)
  {
    assert TimeOk(w.r.was, w.r.todo, Missed(w.r), w.r.now.conditions, kind);
  }

  /** A status write gives every condition that changes the time of the last call about it, keeps the time
      of those that do not change, and loses it exactly where a branch says again what is said already. */
  lemma TransitionTimesExactly(run: seq<State>, steps: seq<Step>, i: nat, k: nat, kind: ConditionType)
    requires IsRun(run, steps) && i < |run| && 0 < k < |run[i].hist| && WriterOf(run[i], k).StatusWrite?
    requires Says(run[i].hist[k], kind).Some?
    ensures var was, now, w := run[i].hist[k - 1], run[i].hist[k], WriterOf(run[i], k);
            && (Says(now, kind) != Says(was, kind) ==>
                  LastCall(w.r.calls, kind).Some?
                  && Since(now.status.conditions, kind) == LastCall(w.r.calls, kind).value.clock > 0)
            && (Says(now, kind) == Says(was, kind) ==>
                  Since(now.status.conditions, kind) ==
                  if LosesTime(was, w, kind) then 0 else Since(was.status.conditions, kind))
  {
    InvOverRuns(run, steps, i);
    var was, now, w := run[i].hist[k - 1], run[i].hist[k], WriterOf(run[i], k);
    TimesOfWrite(was, now, w, kind);
    if Says(now, kind) != Says(was, kind) {
      ChangedSinceCall(was.status.conditions, w.r.calls, now.status.conditions, kind);
    }
  }

  /** No generation is forgotten: a reconcile that starts from a running cluster with an unobserved
      generation and does not sync it all the way leaves Upgrading set, so a later one will. */
  lemma UnobservedGenerationLeavesMark(run: seq<State>, steps: seq<Step>, i: nat, k: nat)
    requires IsRun(run, steps) && i < |run| && 0 < k < |run[i].hist| && WriterOf(run[i], k).StatusWrite?
    requires Says(run[i].hist[k - 1], Running) == Some(Yes)
    requires run[i].hist[k - 1].status.observedGeneration < run[i].hist[k - 1].generation
    ensures Says(run[i].hist[k], Upgrading) == Some(Yes)
            || (WriterOf(run[i], k).r.shared.Passed?
                && run[i].hist[k].status.observedGeneration == run[i].hist[k].generation)
  {
    InvOverRuns(run, steps, i);
    assert Lawful(run[i].hist[k - 1], run[i].hist[k], WriterOf(run[i], k));
  }

  /** The observed generation never goes back and never runs ahead. */
  lemma {:induction false} ObservedGenerationIsMonotone(run: seq<State>, steps: seq<Step>, i: nat, k: nat, later: nat)
    requires IsRun(run, steps) && i < |run| && k <= later < |run[i].hist|
    ensures run[i].hist[k].status.observedGeneration <= run[i].hist[later].status.observedGeneration
    ensures run[i].hist[later].status.observedGeneration <= run[i].hist[later].generation
    decreases later
  {
    InvOverRuns(run, steps, i);
    if k < later {
      ObservedGenerationIsMonotone(run, steps, i, k, later - 1);
      OneWrite(run[i].hist[later - 1], run[i].hist[later], WriterOf(run[i], later));
    }
  }
}
