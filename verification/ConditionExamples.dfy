/** Two runs of the condition machine in which the same reconcile, from the same object and with the
    same observations, ends in opposite statuses. */
module ConditionExamples {
  import opened Lex
  import opened ScaleViewLocks
  import opened LockGuard
  import opened StatusManager
  import opened GroupStatus
  import opened Reconciling
  import opened ConditionMachine

  ghost predicate EndsIn(run: seq<State>, steps: seq<Step>, s: State) {
    IsRun(run, steps) && run[|steps|] == s
  }

  ghost predicate Reachable(s: State) {
    exists run, steps :: EndsIn(run, steps, s)
  }

  lemma Next(s: State, step: Step, next: State)
    requires Reachable(s) && Enabled(s, step) && Apply(s, step) == next
    ensures Reachable(next)
  {
    var run, steps :| EndsIn(run, steps, s);
    assert EndsIn(run + [next], steps + [step], next);
  }

  // ---- One reconcile in flight ----

  ghost function Alone(hist: seq<Stored>, writers: seq<Writer>, r: Reconcile): State {
    State(hist, writers, map[0 := r])
  }

  lemma Begins(hist: seq<Stored>, writers: seq<Writer>)
    requires hist != [] && Reachable(State(hist, writers, map[]))
    ensures Reachable(Alone(hist, writers, Begin(hist, |hist| - 1)))
  {
    Next(State(hist, writers, map[]), Start(0, |hist| - 1), Alone(hist, writers, Begin(hist, |hist| - 1)));
  }

  /** The time of every call. */
  const T := 7

  lemma Acts(hist: seq<Stored>, writers: seq<Writer>, r: Reconcile, b: Branch)
    requires hist != [] && Reachable(Alone(hist, writers, r)) && CanAct(r, b)
    ensures Reachable(Alone(hist, writers, Acted(r, b, T)))
  {
    Next(Alone(hist, writers, r), Act(0, b, T), Alone(hist, writers, Acted(r, b, T)));
  }

  lemma Observes(hist: seq<Stored>, writers: seq<Writer>, r: Reconcile, seen: Option<Seen>)
    requires hist != [] && Reachable(Alone(hist, writers, r)) && Observing in r.todo && r.todo[Observing] == [Judge]
    ensures Reachable(Alone(hist, writers, Judged(r, seen, T)))
  {
    Next(Alone(hist, writers, r), Observe(0, seen, T), Alone(hist, writers, Judged(r, seen, T)));
  }

  lemma Releases(hist: seq<Stored>, writers: seq<Writer>, r: Reconcile)
    requires hist != [] && Reachable(Alone(hist, writers, r)) && Releasing in r.todo && r.todo[Releasing] == [Sweep]
    ensures Reachable(Alone(hist, writers, Swept(r, None)))
  {
    Next(Alone(hist, writers, r), Release(0, None), Alone(hist, writers, Swept(r, None)));
  }

  lemma Opens(hist: seq<Stored>, writers: seq<Writer>, r: Reconcile)
    requires hist != [] && Reachable(Alone(hist, writers, r)) && r.shared.Idle? && SomeoneAwaits(r)
    ensures Reachable(Alone(hist, writers, Opened(r)))
  {
    Next(Alone(hist, writers, r), Step.OpenShared(0), Alone(hist, writers, Opened(r)));
  }

  lemma Closes(hist: seq<Stored>, writers: seq<Writer>, r: Reconcile, sight: Sight)
    requires hist != [] && Reachable(Alone(hist, writers, r)) && r.shared.Working? && AllProceed(r.was, sight)
    ensures Reachable(Alone(hist, writers, Closed(r, Some(sight))))
  {
    Next(Alone(hist, writers, r), CloseShared(0, Some(sight)), Alone(hist, writers, Closed(r, Some(sight))));
  }

  lemma Finishes(hist: seq<Stored>, writers: seq<Writer>, r: Reconcile)
    requires hist != [] && Reachable(Alone(hist, writers, r)) && Done(r) && r.snap == |hist| - 1
    requires r.now != hist[r.snap].status
    ensures Reachable(State(hist + [hist[r.snap].(status := r.now)], writers + [StatusWrite(r)], map[]))
  {
    var s := Alone(hist, writers, r);
    assert s.recs - {0} == map[];
    Next(s, Step.Finish(0), State(hist + [hist[r.snap].(status := r.now)], writers + [StatusWrite(r)], map[]));
  }

  // ---- An object without groups ----

  const NO_GROUPS := Components([], [], [], [])
  const NO_SIGHT := Sight([], [], [], [])

  /** All services are gone. */
  const NOTHING_FOUND := Seen({}, true, NO_SIGHT)

  function New(name: string): Stored {
    Stored(name, 1, NO_GROUPS, Status(0, [], []))
  }

  function NotRunning(name: string): Stored {
    Stored(name, 1, NO_GROUPS, Status(0, [Condition(Initializing, Yes, T), Condition(Running, No, T)], []))
  }

  lemma Empty(o: Stored)
    requires o.components == NO_GROUPS
    ensures AllProceed(o, NO_SIGHT) && SeesMissing(o, NOTHING_FOUND)
  {
    assert ComponentMissing(o, NOTHING_FOUND, Meta);
    forall c: Component ensures Proceeds(TargetOf(o, c), NO_SIGHT.Get(c)) {}
  }

  /** What is left of the branches. */
  ghost predicate Rest(r: Reconcile, first: seq<Action>, starting: seq<Action>, recovering: seq<Action>,
                       observing: seq<Action>, releasing: seq<Action>) {
    && (forall b: Branch :: b in r.todo)
    && r.todo[FirstTime] == first && r.todo[Starting] == starting && r.todo[Recovering] == recovering
    && r.todo[Observing] == observing && r.todo[Releasing] == releasing
    && r.todo[Maintaining] == [] && r.todo[Upgrade] == []
  }

  lemma NothingLeft(r: Reconcile)
    requires Rest(r, [], [], [], [], []) && !r.shared.Working?
    ensures Done(r)
  {
    forall b: Branch ensures r.todo[b] == [] {
      match b
      case FirstTime => case Starting => case Recovering => case Maintaining =>
      case Upgrade => case Observing => case Releasing =>
    }
  }

  // ---- The first reconcile ----

  ghost predicate InFirst(r: Reconcile, name: string, conds: seq<Condition>) {
    r.was == New(name) && r.snap == 0 && r.shared.Idle? && r.now == Status(0, conds, [])
  }

  lemma MarksFirst(name: string, r: Reconcile, kind: ConditionType, verdict: Verdict, rest: seq<Action>)
    requires InFirst(r, name, r.now.conditions) && Rest(r, [Mark(kind, verdict)] + rest, [], [], [Judge], [Sweep])
    requires Find(r.now.conditions, kind).None?
    ensures CanAct(r, FirstTime) && Rest(Acted(r, FirstTime, T), rest, [], [], [Judge], [Sweep])
    ensures InFirst(Acted(r, FirstTime, T), name, r.now.conditions + [Condition(kind, verdict, T)])
  {
    assert ([Mark(kind, verdict)] + rest)[1..] == rest;
  }

  lemma FirstBegins(name: string)
    ensures var r := Begin([New(name)], 0);
            InFirst(r, name, []) && Rest(r, [Mark(Initializing, Yes)] + [Mark(Running, No)], [], [], [Judge], [Sweep])
  {}

  lemma FirstBranch(name: string) returns (r: Reconcile)
    ensures Reachable(Alone([New(name)], [Creation], r)) && Rest(r, [], [], [], [Judge], [])
    ensures InFirst(r, name, NotRunning(name).status.conditions)
  {
    var hist, writers := [New(name)], [Creation];
    assert EndsIn([State(hist, writers, map[])], [], State(hist, writers, map[]));
    Begins(hist, writers);
    FirstBegins(name);
    var r0 := Begin(hist, 0);
    MarksFirst(name, r0, Initializing, Yes, [Mark(Running, No)]);
    Acts(hist, writers, r0, FirstTime);
    var r1 := Acted(r0, FirstTime, T);
    assert [Mark(Running, No)] == [Mark(Running, No)] + [];
    MarksFirst(name, r1, Running, No, []);
    Acts(hist, writers, r1, FirstTime);
    var r2 := Acted(r1, FirstTime, T);
    Releases(hist, writers, r2);
    r := Swept(r2, None);
  }

  /** The reconcile that sees the object first. */
  lemma FirstReconcile(name: string) returns (w: Writer)
    ensures Reachable(State([New(name), NotRunning(name)], [Creation, w], map[]))
  {
    var r := FirstBranch(name);
    Observes([New(name)], [Creation], r, None);
    var last := Judged(r, None, T);
    NothingLeft(last);
    w := StatusWrite(last);
    Finishes([New(name)], [Creation], last);
    assert [New(name)] + [NotRunning(name)] == [New(name), NotRunning(name)] && [Creation] + [w] == [Creation, w];
  }

  // ---- The second one, as far as the point where only two branches are left ----

  ghost predicate InSecond(r: Reconcile, name: string, conds: seq<Condition>) {
    && r.was == NotRunning(name) && r.snap == 1 && r.shared == Passed(NO_SIGHT) && r.judged.Pending?
    && r.now == Status(1, conds, [])
  }

  /** One branch is about to turn Running on, the other is about to look. */
  ghost predicate AtTheFork(r: Reconcile, name: string) {
    InSecond(r, name, [Condition(Running, No, T)]) && Rest(r, [], [], [Mark(Running, Yes)], [Judge], [])
  }

  lemma SnapshotSays(name: string)
    ensures Says(NotRunning(name), Running) == Some(No) && Says(NotRunning(name), Initializing) == Some(Yes)
    ensures Says(NotRunning(name), Upgrading).None?
    ensures WithoutCondition(NotRunning(name).status.conditions, Initializing) == [Condition(Running, No, T)]
  {
    var conds := NotRunning(name).status.conditions;
    FindAt(conds, 0);
    FindAt(conds, 1);
    assert Find(conds, Initializing) == Some(conds[0]) && Find(conds, Running) == Some(conds[1]);
    assert IndexOfKind(conds, Initializing) == 0;
  }

  lemma BeginsNotRunning(hist: seq<Stored>, snap: nat)
    requires snap < |hist| && hist[snap].status.conditions != []
    requires Says(hist[snap], Running) == Some(No) && Says(hist[snap], Initializing) == Some(Yes)
    requires Says(hist[snap], Upgrading).None?
    ensures Rest(Begin(hist, snap), [], [Await, Forget(Initializing)], [Await, Mark(Running, Yes)], [Judge], [Sweep])
    ensures SomeoneAwaits(Begin(hist, snap))
  {
    var r := Begin(hist, snap);
    assert r.todo[Recovering] == [Await, Mark(Running, Yes)];
    assert r.todo[Recovering][0] == Await;
  }

  lemma SharedPasses(name: string, w: Writer) returns (r: Reconcile)
    requires Reachable(State([New(name), NotRunning(name)], [Creation, w], map[]))
    ensures Reachable(Alone([New(name), NotRunning(name)], [Creation, w], r))
    ensures InSecond(r, name, NotRunning(name).status.conditions)
    ensures Rest(r, [], [Await, Forget(Initializing)], [Await, Mark(Running, Yes)], [Judge], [Sweep])
  {
    var hist, writers := [New(name), NotRunning(name)], [Creation, w];
    Begins(hist, writers);
    SnapshotSays(name);
    BeginsNotRunning(hist, 1);
    Opens(hist, writers, Begin(hist, 1));
    Empty(NotRunning(name));
    Closes(hist, writers, Opened(Begin(hist, 1)), NO_SIGHT);
    r := Closed(Opened(Begin(hist, 1)), Some(NO_SIGHT));
  }

  lemma Waited(name: string, conds: seq<Condition>, r: Reconcile, starting: seq<Action>, recovering: seq<Action>)
    requires InSecond(r, name, conds) && Rest(r, [], [Await] + starting, [Await] + recovering, [Judge], [Sweep])
    ensures CanAct(r, Starting) && CanAct(Acted(r, Starting, T), Recovering)
    ensures InSecond(Acted(Acted(r, Starting, T), Recovering, T), name, conds)
    ensures Rest(Acted(Acted(r, Starting, T), Recovering, T), [], starting, recovering, [Judge], [Sweep])
  {
    assert ([Await] + starting)[1..] == starting && ([Await] + recovering)[1..] == recovering;
  }

  lemma Forgets(name: string, r: Reconcile, recovering: seq<Action>)
    requires InSecond(r, name, NotRunning(name).status.conditions)
    requires Rest(r, [], [Forget(Initializing)], recovering, [Judge], [Sweep])
    ensures CanAct(r, Starting) && InSecond(Acted(r, Starting, T), name, [Condition(Running, No, T)])
    ensures Rest(Acted(r, Starting, T), [], [], recovering, [Judge], [Sweep])
  {
    SnapshotSays(name);
  }

  lemma BothHaveWaited(name: string, w: Writer) returns (r: Reconcile)
    requires Reachable(State([New(name), NotRunning(name)], [Creation, w], map[]))
    ensures Reachable(Alone([New(name), NotRunning(name)], [Creation, w], r))
    ensures InSecond(r, name, NotRunning(name).status.conditions)
    ensures Rest(r, [], [Forget(Initializing)], [Mark(Running, Yes)], [Judge], [Sweep])
  {
    var hist, writers := [New(name), NotRunning(name)], [Creation, w];
    var starting, recovering := [Forget(Initializing)], [Mark(Running, Yes)];
    var r0 := SharedPasses(name, w);
    assert [Await, Forget(Initializing)] == [Await] + starting && [Await, Mark(Running, Yes)] == [Await] + recovering;
    Waited(name, NotRunning(name).status.conditions, r0, starting, recovering);
    Acts(hist, writers, r0, Starting);
    Acts(hist, writers, Acted(r0, Starting, T), Recovering);
    r := Acted(Acted(r0, Starting, T), Recovering, T);
  }

  lemma ReachTheFork(name: string, w: Writer) returns (r: Reconcile)
    requires Reachable(State([New(name), NotRunning(name)], [Creation, w], map[]))
    ensures Reachable(Alone([New(name), NotRunning(name)], [Creation, w], r)) && AtTheFork(r, name)
  {
    var hist, writers := [New(name), NotRunning(name)], [Creation, w];
    var r1 := BothHaveWaited(name, w);
    Forgets(name, r1, [Mark(Running, Yes)]);
    Acts(hist, writers, r1, Starting);
    var r2 := Acted(r1, Starting, T);
    Releases(hist, writers, r2);
    r := Swept(r2, None);
  }

  // ---- The fork ----

  ghost predicate OneCondition(r: Reconcile, name: string, verdict: Verdict, since: nat) {
    && r.was == NotRunning(name) && r.snap == 1 && r.shared == Passed(NO_SIGHT)
    && r.now == Status(1, [Condition(Running, verdict, since)], [])
  }

  lemma MarksOnly(r: Reconcile, verdict: Verdict)
    requires |r.now.conditions| == 1 && r.now.conditions[0].kind == Running && Says(r.was, Running) == Some(No)
    ensures AfterMark(r, Running, verdict, T)
            == r.now.(conditions := [Condition(Running, verdict, if verdict == No then 0 else T)])
  {}

  lemma TurnsOn(r: Reconcile, name: string, verdict: Verdict, since: nat, observing: seq<Action>)
    requires OneCondition(r, name, verdict, since) && Rest(r, [], [], [Mark(Running, Yes)], observing, [])
    ensures CanAct(r, Recovering) && OneCondition(Acted(r, Recovering, T), name, Yes, T)
    ensures Rest(Acted(r, Recovering, T), [], [], [], observing, []) && Acted(r, Recovering, T).judged == r.judged
  {
    SnapshotSays(name);
    MarksOnly(r, Yes);
  }

  /** The snapshot says No already, so the time is wiped. */
  lemma TurnsOff(r: Reconcile, name: string, verdict: Verdict, since: nat, recovering: seq<Action>)
    requires OneCondition(r, name, verdict, since) && Rest(r, [], [], recovering, [Judge], [])
    ensures var after := Judged(r, Some(NOTHING_FOUND), T);
            && OneCondition(after, name, No, 0) && Rest(after, [], [], recovering, [], [])
            && after.judged == Read(NOTHING_FOUND)
  {
    SnapshotSays(name);
    MarksOnly(r, No);
    Empty(NotRunning(name));
  }

  /** The cluster after the second reconcile. */
  ghost function Ended(name: string, w: Writer, r: Reconcile): State {
    State([New(name), NotRunning(name), NotRunning(name).(status := r.now)], [Creation, w, StatusWrite(r)], map[])
  }

  lemma Ends(name: string, w: Writer, r: Reconcile, verdict: Verdict, since: nat)
    requires Reachable(Alone([New(name), NotRunning(name)], [Creation, w], r))
    requires OneCondition(r, name, verdict, since) && Rest(r, [], [], [], [], [])
    ensures Reachable(Ended(name, w, r))
  {
    var hist, writers := [New(name), NotRunning(name)], [Creation, w];
    NothingLeft(r);
    assert |r.now.conditions| != |NotRunning(name).status.conditions|;
    Finishes(hist, writers, r);
    assert hist + [NotRunning(name).(status := r.now)] == Ended(name, w, r).hist;
    assert writers + [StatusWrite(r)] == Ended(name, w, r).writers;
  }

  /** Looks last: Running is off. */
  lemma LookingLast(name: string, w: Writer, r: Reconcile) returns (off: Reconcile)
    requires Reachable(Alone([New(name), NotRunning(name)], [Creation, w], r)) && AtTheFork(r, name)
    ensures OneCondition(off, name, No, 0) && off.judged == Read(NOTHING_FOUND) && Reachable(Ended(name, w, off))
  {
    var hist, writers := [New(name), NotRunning(name)], [Creation, w];
    TurnsOn(r, name, No, T, [Judge]);
    Acts(hist, writers, r, Recovering);
    TurnsOff(Acted(r, Recovering, T), name, Yes, T, []);
    Observes(hist, writers, Acted(r, Recovering, T), Some(NOTHING_FOUND));
    off := Judged(Acted(r, Recovering, T), Some(NOTHING_FOUND), T);
    Ends(name, w, off, No, 0);
  }

  /** Looks first: Running is on. */
  lemma LookingFirst(name: string, w: Writer, r: Reconcile) returns (on: Reconcile)
    requires Reachable(Alone([New(name), NotRunning(name)], [Creation, w], r)) && AtTheFork(r, name)
    ensures OneCondition(on, name, Yes, T) && on.judged == Read(NOTHING_FOUND) && Reachable(Ended(name, w, on))
  {
    var hist, writers := [New(name), NotRunning(name)], [Creation, w];
    TurnsOff(r, name, No, T, [Mark(Running, Yes)]);
    Observes(hist, writers, r, Some(NOTHING_FOUND));
    TurnsOn(Judged(r, Some(NOTHING_FOUND), T), name, No, 0, []);
    Acts(hist, writers, Judged(r, Some(NOTHING_FOUND), T), Recovering);
    on := Acted(Judged(r, Some(NOTHING_FOUND), T), Recovering, T);
    Ends(name, w, on, Yes, T);
  }

  /** The last write is by a reconcile that passed its barrier, saw something missing and found the
      cluster not running; it leaves Running at `verdict` since `since`. */
  ghost predicate EndsWith(s: State, verdict: Verdict, since: nat) {
    && |s.hist| == 3 && Says(s.hist[1], Running) == Some(No) && Since(s.hist[1].status.conditions, Running) > 0
    && Says(s.hist[2], Running) == Some(verdict) && Since(s.hist[2].status.conditions, Running) == since
    && WriterOf(s, 2).StatusWrite? && WriterOf(s, 2).r.shared.Passed? && WrittenAfterMissing(s.hist[1], WriterOf(s, 2))
  }

  lemma EndedWith(name: string, w: Writer, r: Reconcile, verdict: Verdict, since: nat)
    requires OneCondition(r, name, verdict, since) && r.judged == Read(NOTHING_FOUND)
    ensures EndsWith(Ended(name, w, r), verdict, since)
  {
    Empty(NotRunning(name));
    FindAt(NotRunning(name).status.conditions, 1);
    FindAt(r.now.conditions, 0);
  }

  /** Both outcomes are reachable, from the same object, snapshot and observations. */
  lemma OrderDecidesRunning(name: string) returns (s: State, t: State)
    ensures Reachable(s) && Reachable(t) && EndsWith(s, Yes, T) && EndsWith(t, No, 0) && s.hist[..2] == t.hist[..2]
    ensures WriterOf(s, 2).r.shared == WriterOf(t, 2).r.shared && WriterOf(s, 2).r.judged == WriterOf(t, 2).r.judged
  {
    var w := FirstReconcile(name);
    var r := ReachTheFork(name, w);
    var on := LookingFirst(name, w, r);
    var off := LookingLast(name, w, r);
    EndedWith(name, w, on, Yes, T);
    EndedWith(name, w, off, No, 0);
    s, t := Ended(name, w, on), Ended(name, w, off);
    assert s.hist[..2] == [New(name), NotRunning(name)] == t.hist[..2];
  }
}
