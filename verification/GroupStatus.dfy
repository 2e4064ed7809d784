/** Two more loops over the same workloads: the barrier that waits for them, and the builder of the
    status that reports them. They agree. */
module GroupStatus {
  import opened Lex
  import opened LockGuard
  import opened GroupSync
  import opened Integers
  import opened ScaleViewWebhooks

  /** A workload with what its own status says. */
  datatype Observed = Observed(workload: Workload, readyReplicas: int, rolledOut: bool)

  datatype Entry = Entry(name: string, target: int, running: int, present: bool)

  datatype ReplicasStatus = ReplicasStatus(running: int, target: int, groups: seq<Entry>)

  predicate IsReady(t: Target, o: Observed) {
    IsObjectSynced(t, o.workload) && o.rolledOut
  }

  predicate Found(workloads: seq<Observed>, group: string) {
    exists o :: o in workloads && o.workload.group == group
  }

  // ---- The barrier ----

  predicate AllReady(t: Target, objects: seq<Observed>) {
    forall o :: o in objects ==> IsReady(t, o)
  }

  predicate Proceeds(t: Target, objects: seq<Observed>) {
    && AllReady(t, objects)
    && (forall o :: o in objects ==> o.workload.group in t.expected)
    && forall g :: g in t.expected ==> Found(objects, g)
  }

  /** The workload has finished rolling out, and what it was made from is not older than the generation at hand. */
  ghost predicate RolledOutAt(generation: int, o: Observed) {
    o.rolledOut && (o.workload.stamp.NoSync? || o.workload.stamp.number >= generation)
  }

  /** Where the barrier opens: every workload has rolled out at the generation at hand and is of an expected group,
      and every expected group has a workload. */
  lemma BarrierOpensExactly(t: Target, objects: seq<Observed>)
    ensures Proceeds(t, objects) <==>
            (forall o :: o in objects ==> RolledOutAt(t.generation, o) && o.workload.group in t.expected)
            && forall g :: g in t.expected ==> exists o :: o in objects && o.workload.group == g
  {
    assert forall o :: o in objects ==> (IsReady(t, o) <==> RolledOutAt(t.generation, o));
    assert forall g :: Found(objects, g) <==> exists o :: o in objects && o.workload.group == g;
  }

  method WaitComponentGroupWorkloadsReady(t: Target, objects: seq<Observed>) returns (proceed: bool)
    ensures proceed <==> Proceeds(t, objects)
    ensures proceed ==> forall o :: o in objects ==> RolledOutAt(t.generation, o) && o.workload.group in t.expected
    ensures proceed ==> forall g :: g in t.expected ==> exists o :: o in objects && o.workload.group == g
    ensures !proceed ==>
              || (exists o :: o in objects && !(RolledOutAt(t.generation, o) && o.workload.group in t.expected))
              || exists g :: g in t.expected && forall o :: o in objects ==> o.workload.group != g
  {
    BarrierOpensExactly(t, objects);
    var foundGroups: set<string> := {};
    for i := 0 to |objects|
      invariant forall o :: o in objects[..i] ==> o.workload.group in t.expected && IsReady(t, o)
      invariant forall g :: g in foundGroups <==> Found(objects[..i], g)
    {
      var o := objects[i];
      assert objects[..i + 1] == objects[..i] + [o];
      assert o in objects;
      foundGroups := foundGroups + {o.workload.group};
      if o.workload.group !in t.expected || !IsReady(t, o) {
        return false;
      }
    }
    assert objects[..|objects|] == objects;
    var todo := t.expected;
    while todo != {}
      invariant todo <= t.expected && forall g :: g in t.expected - todo ==> Found(objects, g)
      decreases todo
    {
      var g := AnyOf(todo);
      if g !in foundGroups {
        return false;
      }
      todo := todo - {g};
    }
    proceed := true;
  }

  // ---- The status ----

  /** The replicas of each group; of several groups of one name the last counts. */
  function Replicas(groups: seq<NodeGroup>): (m: map<string, int>)
    ensures forall n :: n in m <==> exists g :: g in groups && g.name == n
  {
    if groups == [] then map[]
    else
      var last := |groups| - 1;
      assert groups == groups[..last] + [groups[last]];
      Replicas(groups[..last])[groups[last].name := groups[last].replicas]
  }

  lemma {:induction false} LastOfNameCounts(groups: seq<NodeGroup>, i: nat)
    requires i < |groups| && forall j :: i < j < |groups| ==> groups[j].name != groups[i].name
    ensures groups[i].name in Replicas(groups) && Replicas(groups)[groups[i].name] == groups[i].replicas
    decreases |groups|
  {
    var last := |groups| - 1;
    if i < last {
      assert groups[..last][i] == groups[i];
      LastOfNameCounts(groups[..last], i);
    }
  }

  function TotalTarget(groups: seq<NodeGroup>): int {
    if groups == [] then 0 else TotalTarget(groups[..|groups| - 1]) + groups[|groups| - 1].replicas
  }

  function TotalReady(workloads: seq<Observed>): int {
    if workloads == [] then 0 else TotalReady(workloads[..|workloads| - 1]) + workloads[|workloads| - 1].readyReplicas
  }

  /** The entry of a workload: one of an unexpected group is marked in its name. */
  function EntryOf(expected: map<string, int>, o: Observed): Entry {
    var group := o.workload.group;
    if group in expected then Entry(group, expected[group], o.readyReplicas, true)
    else Entry(group + "(-)", 0, o.readyReplicas, true)
  }

  function Entries(expected: map<string, int>, workloads: seq<Observed>): (r: seq<Entry>)
    ensures |r| == |workloads| && forall i :: 0 <= i < |r| ==> r[i] == EntryOf(expected, workloads[i])
  {
    if workloads == [] then []
    else Entries(expected, workloads[..|workloads| - 1]) + [EntryOf(expected, workloads[|workloads| - 1])]
  }

  function MissingEntry(expected: map<string, int>, g: string): Entry
    requires g in expected
  {
    Entry(g, expected[g], 0, false)
  }

  ghost function MissingAmong(expected: map<string, int>, workloads: seq<Observed>, names: set<string>): (r: set<Entry>)
    requires names <= expected.Keys
    ensures forall e :: e in r <==> e.name in names && !Found(workloads, e.name) && e == MissingEntry(expected, e.name)
  {
    set g | g in names && !Found(workloads, g) :: MissingEntry(expected, g)
  }

  /** The status: one entry a workload, one a missing group, in order of their names. */
  ghost predicate IsStatus(groups: seq<NodeGroup>, workloads: seq<Observed>, status: ReplicasStatus) {
    var expected := Replicas(groups);
    var missing := MissingAmong(expected, workloads, expected.Keys);
    && status.target == Wrap32(TotalTarget(groups))
    && status.running == Wrap32(TotalReady(workloads))
    && multiset(status.groups) == multiset(Entries(expected, workloads)) + multiset(missing)
    && ByName(status.groups)
  }

  ghost predicate ByName(s: seq<Entry>) {
    forall i, j :: 0 <= i < j < |s| ==> !Less(s[j].name, s[i].name)
  }

  method BuildNodeGroupStatus(groups: seq<NodeGroup>, workloads: seq<Observed>) returns (status: ReplicasStatus)
    ensures IsStatus(groups, workloads, status)
  {
    var expectedGroups, target := ExpectedGroups(groups);
    var foundGroups, entries, running := FoundGroups(expectedGroups, workloads);
    var missing := MissingGroups(expectedGroups, workloads, foundGroups);
    var sorted := SortByName(entries + missing);
    status := ReplicasStatus(running, target, sorted);
  }

  method ExpectedGroups(groups: seq<NodeGroup>) returns (expectedGroups: map<string, int>, target: int)
    ensures expectedGroups == Replicas(groups) && target == Wrap32(TotalTarget(groups))
  {
    expectedGroups, target := map[], 0;
    for i := 0 to |groups|
      invariant expectedGroups == Replicas(groups[..i]) && target == Wrap32(TotalTarget(groups[..i]))
    {
      assert groups[..i + 1][..i] == groups[..i];
      WrapAbsorbs(TotalTarget(groups[..i]), groups[i].replicas);
      expectedGroups := expectedGroups[groups[i].name := groups[i].replicas];
      target := Wrap32(target + groups[i].replicas);
    }
    assert groups[..|groups|] == groups;
  }

  lemma FoundAppend(workloads: seq<Observed>, o: Observed, g: string)
    ensures Found(workloads + [o], g) <==> Found(workloads, g) || g == o.workload.group
  {
    assert o in workloads + [o];
    if Found(workloads, g) {
      var w :| w in workloads && w.workload.group == g;
      assert w in workloads + [o];
    }
  }

  lemma OneMoreWorkload(expected: map<string, int>, done: seq<Observed>, o: Observed)
    ensures Entries(expected, done + [o]) == Entries(expected, done) + [EntryOf(expected, o)]
    ensures Wrap32(TotalReady(done + [o])) == Wrap32(Wrap32(TotalReady(done)) + o.readyReplicas)
  {
    assert (done + [o])[..|done|] == done;
    WrapAbsorbs(TotalReady(done), o.readyReplicas);
  }

  method FoundGroups(expectedGroups: map<string, int>, workloads: seq<Observed>)
    returns (foundGroups: set<string>, entries: seq<Entry>, running: int)
    ensures IsFound(foundGroups, workloads)
    ensures entries == Entries(expectedGroups, workloads) && running == Wrap32(TotalReady(workloads))
  {
    foundGroups, entries, running := {}, [], 0;
    for i := 0 to |workloads|
      invariant IsFound(foundGroups, workloads[..i])
      invariant entries == Entries(expectedGroups, workloads[..i]) && running == Wrap32(TotalReady(workloads[..i]))
    {
      TakeNext(workloads, i);
      foundGroups, entries, running :=
        AddWorkload(expectedGroups, workloads[..i], workloads[i], foundGroups, entries, running);
    }
    TakeAll(workloads);
  }

  ghost predicate IsFound(foundGroups: set<string>, workloads: seq<Observed>) {
    forall g :: g in foundGroups <==> Found(workloads, g)
  }

  /** The body of that loop. */
  method AddWorkload(expectedGroups: map<string, int>, ghost done: seq<Observed>, o: Observed,
                     foundGroups0: set<string>, entries0: seq<Entry>, running0: int)
    returns (foundGroups: set<string>, entries: seq<Entry>, running: int)
    requires IsFound(foundGroups0, done)
    requires entries0 == Entries(expectedGroups, done) && running0 == Wrap32(TotalReady(done))
    ensures IsFound(foundGroups, done + [o])
    ensures entries == Entries(expectedGroups, done + [o]) && running == Wrap32(TotalReady(done + [o]))
  {
    forall g { FoundAppend(done, o, g); }
    OneMoreWorkload(expectedGroups, done, o);
    foundGroups := foundGroups0 + {o.workload.group};
    running := Wrap32(running0 + o.readyReplicas);
    if o.workload.group in expectedGroups {
      entries := entries0 + [Entry(o.workload.group, expectedGroups[o.workload.group], o.readyReplicas, true)];
    } else {
      entries := entries0 + [Entry(o.workload.group + "(-)", 0, o.readyReplicas, true)];
    }
  }

  method MissingGroups(expectedGroups: map<string, int>, workloads: seq<Observed>, foundGroups: set<string>)
    returns (missing: seq<Entry>)
    requires IsFound(foundGroups, workloads)
    ensures multiset(missing) == multiset(MissingAmong(expectedGroups, workloads, expectedGroups.Keys))
  {
    missing := [];
    var todo := expectedGroups.Keys;
    while todo != {}
      invariant todo <= expectedGroups.Keys
      invariant multiset(missing) == multiset(MissingAmong(expectedGroups, workloads, expectedGroups.Keys - todo))
      decreases todo
    {
      var g := AnyOf(todo);
      OneMoreMissing(expectedGroups, workloads, expectedGroups.Keys - todo, g);
      assert expectedGroups.Keys - (todo - {g}) == expectedGroups.Keys - todo + {g};
      if g !in foundGroups {
        missing := missing + [MissingEntry(expectedGroups, g)];
      }
      todo := todo - {g};
    }
    assert expectedGroups.Keys - todo == expectedGroups.Keys;
  }

  lemma OneMoreMissing(expected: map<string, int>, workloads: seq<Observed>, names: set<string>, g: string)
    requires names <= expected.Keys && g in expected && g !in names
    ensures multiset(MissingAmong(expected, workloads, names + {g})) ==
            multiset(MissingAmong(expected, workloads, names))
            + if Found(workloads, g) then multiset{} else multiset{MissingEntry(expected, g)}
  {
    if !Found(workloads, g) {
      assert MissingAmong(expected, workloads, names + {g}) ==
             MissingAmong(expected, workloads, names) + {MissingEntry(expected, g)};
    } else {
      assert MissingAmong(expected, workloads, names + {g}) == MissingAmong(expected, workloads, names);
    }
  }

  /** `sort.Slice` by name: an insertion sort stands for it. */
  method SortByName(s: seq<Entry>) returns (r: seq<Entry>)
    ensures multiset(r) == multiset(s) && ByName(r)
  {
    r := [];
    for i := 0 to |s|
      invariant multiset(r) == multiset(s[..i]) && ByName(r)
    {
      assert s[..i + 1] == s[..i] + [s[i]];
      r := Insert(s[i], r);
    }
    assert s[..|s|] == s;
  }

  method Insert(x: Entry, s: seq<Entry>) returns (r: seq<Entry>)
    requires ByName(s)
    ensures multiset(r) == multiset(s) + multiset{x} && ByName(r)
  {
    var k := 0;
    while k < |s| && !Less(x.name, s[k].name)
      invariant k <= |s| && forall j :: 0 <= j < k ==> !Less(x.name, s[j].name)
    {
      k := k + 1;
    }
    r := s[..k] + [x] + s[k..];
    assert s == s[..k] + s[k..];
    InsertKeepsOrder(x, s, k, r);
  }

  lemma InsertKeepsOrder(x: Entry, s: seq<Entry>, k: nat, r: seq<Entry>)
    requires ByName(s) && k <= |s| && r == s[..k] + [x] + s[k..]
    requires forall j :: 0 <= j < k ==> !Less(x.name, s[j].name)
    requires k < |s| ==> Less(x.name, s[k].name)
    ensures ByName(r)
  {
    forall j | k <= j < |s| ensures !Less(s[j].name, x.name) {
      LessAsymmetric(x.name, s[k].name);
      if j > k { NotLessTransitive(x.name, s[k].name, s[j].name); }
    }
    forall i, j | 0 <= i < j < |r| ensures !Less(r[j].name, r[i].name) {
      assert r[j] == if j < k then s[j] else if j == k then x else s[j - 1];
      assert r[i] == if i < k then s[i] else if i == k then x else s[i - 1];
    }
  }

  // ---- Agreement ----

  ghost predicate Marked(name: string) {
    |name| >= 3 && name[|name| - 3..] == "(-)"
  }

  lemma InStatus(groups: seq<NodeGroup>, workloads: seq<Observed>, status: ReplicasStatus, e: Entry)
    requires IsStatus(groups, workloads, status)
    ensures e in status.groups <==>
            (exists o :: o in workloads && e == EntryOf(Replicas(groups), o))
            || (e.name in Replicas(groups) && !Found(workloads, e.name) && e == MissingEntry(Replicas(groups), e.name))
  {
    var entries := Entries(Replicas(groups), workloads);
    var missing := MissingAmong(Replicas(groups), workloads, Replicas(groups).Keys);
    assert e in status.groups <==> e in multiset(status.groups);
    assert e in multiset(status.groups) <==> e in entries || e in missing;
    if o :| o in workloads && e == EntryOf(Replicas(groups), o) {
      var i :| 0 <= i < |workloads| && workloads[i] == o;
      assert entries[i] == e;
    }
  }

  /** Every entry of the status says that its group is there and expected. */
  ghost predicate NothingAmiss(t: Target, status: ReplicasStatus) {
    forall e :: e in status.groups ==> e.present && e.name in t.expected
  }

  /** The barrier lets a component pass exactly when all its workloads are ready and the status of
      the same workloads reports no group that is missing and none that is not expected. Group names
      are label values, so none is marked like an unexpected group. */
  lemma BarrierAgreesWithStatus(t: Target, groups: seq<NodeGroup>, workloads: seq<Observed>, status: ReplicasStatus)
    requires IsStatus(groups, workloads, status) && t.expected == Replicas(groups).Keys
    requires forall g :: g in t.expected ==> !Marked(g)
    ensures Proceeds(t, workloads) <==> AllReady(t, workloads) && NothingAmiss(t, status)
  {
    if Proceeds(t, workloads) { PassedIsNotAmiss(t, groups, workloads, status); }
    if AllReady(t, workloads) && NothingAmiss(t, status) { NotAmissPasses(t, groups, workloads, status); }
  }

  lemma PassedIsNotAmiss(t: Target, groups: seq<NodeGroup>, workloads: seq<Observed>, status: ReplicasStatus)
    requires IsStatus(groups, workloads, status) && t.expected == Replicas(groups).Keys && Proceeds(t, workloads)
    ensures NothingAmiss(t, status)
  {
    forall e | e in status.groups ensures e.present && e.name in t.expected {
      InStatus(groups, workloads, status, e);
    }
  }

  lemma NotAmissPasses(t: Target, groups: seq<NodeGroup>, workloads: seq<Observed>, status: ReplicasStatus)
    requires IsStatus(groups, workloads, status) && t.expected == Replicas(groups).Keys
    requires forall g :: g in t.expected ==> !Marked(g)
    requires AllReady(t, workloads) && NothingAmiss(t, status)
    ensures Proceeds(t, workloads)
  {
    var expected := Replicas(groups);
    forall o | o in workloads ensures o.workload.group in t.expected {
      InStatus(groups, workloads, status, EntryOf(expected, o));
      UnexpectedIsMarked(o.workload.group);
    }
    forall g | g in t.expected ensures Found(workloads, g) {
      InStatus(groups, workloads, status, MissingEntry(expected, g));
    }
  }

  lemma UnexpectedIsMarked(group: string)
    ensures Marked(group + "(-)")
  {}

  /** What the status then says: nothing but the expected groups, with the replicas they should have. */
  lemma ReadyStatus(t: Target, groups: seq<NodeGroup>, workloads: seq<Observed>, status: ReplicasStatus)
    requires IsStatus(groups, workloads, status) && t.expected == Replicas(groups).Keys && Proceeds(t, workloads)
    ensures |status.groups| == |workloads|
    ensures forall e :: e in status.groups ==> e.present && e.name in t.expected && e.target == Replicas(groups)[e.name]
    ensures forall g :: g in t.expected ==> exists e :: e in status.groups && e.name == g
    ensures status.running == Wrap32(TotalReady(workloads)) && status.target == Wrap32(TotalTarget(groups))
  {
    var expected := Replicas(groups);
    assert MissingAmong(expected, workloads, expected.Keys) == {};
    assert |status.groups| == |multiset(status.groups)|;
    forall e | e in status.groups ensures e.present && e.name in t.expected && e.target == expected[e.name] {
      InStatus(groups, workloads, status, e);
    }
    forall g | g in t.expected ensures exists e :: e in status.groups && e.name == g {
      assert Found(workloads, g);
      var o :| o in workloads && o.workload.group == g;
      InStatus(groups, workloads, status, EntryOf(expected, o));
      assert EntryOf(expected, o).name == g;
    }
  }

  ghost predicate SomeMissing(groups: seq<NodeGroup>, workloads: seq<Observed>) {
    exists g :: g in Replicas(groups) && !Found(workloads, g)
  }

  /** The status names a missing group exactly when an expected group has no workload; this is what
      turns the cluster's Running condition off. */
  lemma MissingReportedExactly(groups: seq<NodeGroup>, workloads: seq<Observed>, status: ReplicasStatus)
    requires IsStatus(groups, workloads, status)
    ensures (exists e :: e in status.groups && !e.present) <==> SomeMissing(groups, workloads)
  {
    if e :| e in status.groups && !e.present {
      InStatus(groups, workloads, status, e);
    }
    if g :| g in Replicas(groups) && !Found(workloads, g) {
      InStatus(groups, workloads, status, MissingEntry(Replicas(groups), g));
      assert !MissingEntry(Replicas(groups), g).present;
    }
  }

  // ---- The numbers of the entries ----

  ghost function RunningOf(e: Entry, name: Option<string>): int {
    if name == None || name == Some(e.name) then e.running else 0
  }

  /** What runs under a name, or under any, by the entries. */
  ghost function RunningIn(m: multiset<Entry>, name: Option<string>): int
    decreases |m|
  {
    if m == multiset{} then 0 else RunningOf(SomeOf(m), name) + RunningIn(m - multiset{SomeOf(m)}, name)
  }

  ghost function SomeOf(m: multiset<Entry>): (e: Entry)
    requires m != multiset{}
    ensures e in m
  {
    var e :| e in m; e
  }

  /** What is ready in a group, or in any, by the workloads. */
  ghost function ReadyIn(workloads: seq<Observed>, group: Option<string>): int {
    if workloads == [] then 0
    else
      var o := workloads[0];
      (if group == None || group == Some(o.workload.group) then o.readyReplicas else 0) + ReadyIn(workloads[1..], group)
  }

  lemma {:induction false} RunningWithout(m: multiset<Entry>, e: Entry, name: Option<string>)
    requires e in m
    ensures RunningIn(m, name) == RunningOf(e, name) + RunningIn(m - multiset{e}, name)
    decreases |m|
  {
    var x := SomeOf(m);
    if x != e {
      RunningWithout(m - multiset{x}, e, name);
      RunningWithout(m - multiset{e}, x, name);
      assert m - multiset{x} - multiset{e} == m - multiset{e} - multiset{x};
    }
  }

  lemma RunningWith(m: multiset<Entry>, e: Entry, name: Option<string>)
    ensures RunningIn(m + multiset{e}, name) == RunningOf(e, name) + RunningIn(m, name)
  {
    RunningWithout(m + multiset{e}, e, name);
    assert m + multiset{e} - multiset{e} == m;
  }

  lemma {:induction false} IdleEntriesAddNothing(m: multiset<Entry>, idle: multiset<Entry>, name: Option<string>)
    requires forall e :: e in idle ==> e.running == 0
    ensures RunningIn(m + idle, name) == RunningIn(m, name)
    decreases |idle|
  {
    if e :| e in idle {
      IdleEntriesAddNothing(m, idle - multiset{e}, name);
      RunningWith(m + (idle - multiset{e}), e, name);
      assert m + idle == m + (idle - multiset{e}) + multiset{e};
    } else {
      assert m + idle == m;
    }
  }

  /** Unexpected groups are marked in the name of their entries. */
  function EntryName(expected: map<string, int>, group: string): string {
    if group in expected then group else group + "(-)"
  }

  lemma EntryNamesDiffer(expected: map<string, int>, g: string, h: string)
    requires (forall n :: n in expected ==> !Marked(n)) && EntryName(expected, g) == EntryName(expected, h)
    ensures g == h
  {
    UnexpectedIsMarked(g);
    UnexpectedIsMarked(h);
    if g !in expected && h !in expected { assert (g + "(-)")[..|g|] == g && (h + "(-)")[..|h|] == h; }
  }

  lemma {:induction false} ReadySnoc(workloads: seq<Observed>, o: Observed, group: Option<string>)
    ensures ReadyIn(workloads + [o], group) ==
            ReadyIn(workloads, group) + if group == None || group == Some(o.workload.group) then o.readyReplicas else 0
  {
    if workloads == [] {
      assert workloads + [o] == [o];
    } else {
      ReadySnoc(workloads[1..], o, group);
      assert (workloads + [o])[1..] == workloads[1..] + [o];
    }
  }

  ghost function NameUnder(expected: map<string, int>, group: Option<string>): Option<string> {
    if group.None? then None else Some(EntryName(expected, group.value))
  }

  lemma EntryCounts(expected: map<string, int>, o: Observed, group: Option<string>)
    requires forall n :: n in expected ==> !Marked(n)
    ensures RunningOf(EntryOf(expected, o), NameUnder(expected, group)) ==
            if group == None || group == Some(o.workload.group) then o.readyReplicas else 0
  {
    assert EntryOf(expected, o).name == EntryName(expected, o.workload.group);
    if group.Some? && o.workload.group != group.value
      && EntryOf(expected, o).name == EntryName(expected, group.value)
    {
      EntryNamesDiffer(expected, o.workload.group, group.value);
    }
  }

  lemma OneMoreEntry(expected: map<string, int>, done: seq<Observed>, o: Observed, group: Option<string>,
                     name: Option<string>)
    requires RunningIn(multiset(Entries(expected, done)), name) == ReadyIn(done, group)
    requires RunningOf(EntryOf(expected, o), name) ==
             if group == None || group == Some(o.workload.group) then o.readyReplicas else 0
    ensures RunningIn(multiset(Entries(expected, done + [o])), name) == ReadyIn(done + [o], group)
  {
    OneMoreWorkload(expected, done, o);
    var e := EntryOf(expected, o);
    assert multiset(Entries(expected, done + [o])) == multiset(Entries(expected, done)) + multiset{e};
    RunningWith(multiset(Entries(expected, done)), EntryOf(expected, o), name);
    ReadySnoc(done, o, group);
  }

  lemma EntriesAddUp(expected: map<string, int>, workloads: seq<Observed>, group: Option<string>)
    requires forall n :: n in expected ==> !Marked(n)
    ensures RunningIn(multiset(Entries(expected, workloads)), NameUnder(expected, group)) == ReadyIn(workloads, group)
  {
    for i := 0 to |workloads|
      invariant RunningIn(multiset(Entries(expected, workloads[..i])), NameUnder(expected, group))
             == ReadyIn(workloads[..i], group)
    {
      TakeNext(workloads, i);
      EntryCounts(expected, workloads[i], group);
      OneMoreEntry(expected, workloads[..i], workloads[i], group, NameUnder(expected, group));
    }
    TakeAll(workloads);
  }

  /** The target of the status is a plain sum. */
  lemma {:induction false} TargetsAddUp(groups: seq<NodeGroup>, more: seq<NodeGroup>, g: NodeGroup)
    ensures TotalTarget(groups + more) == TotalTarget(groups) + TotalTarget(more)
    ensures TotalTarget([g]) == g.replicas
  {
    assert [g][..0] == [];
    if more == [] {
      assert groups + more == groups;
    } else {
      var last := |more| - 1;
      TargetsAddUp(groups, more[..last], g);
      assert (groups + more)[..|groups + more| - 1] == groups + more[..last];
    }
  }

  /** A scale view without policies starts with the target of its component. */
  lemma DefaultTotalIsTarget(groups: seq<NodeGroup>)
    requires forall i, j :: 0 <= i < j < |groups| ==> groups[i].name != groups[j].name
    ensures GroupTotal(EffectivePolicies([], groups), groups) == TotalTarget(groups)
    ensures Creatable(EffectivePolicies([], groups), groups)
  {
    var ps := DefaultPolicies(groups);
    var i := |groups|;
    TakeAll(groups);
    while i > 0
      invariant 0 <= i <= |groups| && forall k :: i <= k < |groups| ==> InRange(ps[k], groups)
      invariant GroupTotal(ps[i..], groups) + TotalTarget(groups[..i]) == TotalTarget(groups)
    {
      i := i - 1;
      ReadsOwnReplicas(groups, i);
      assert ps[i..][1..] == ps[i + 1..] && groups[..i + 1][..i] == groups[..i];
    }
  }

  lemma {:induction false} ReadsOwnReplicas(groups: seq<NodeGroup>, i: nat)
    requires i < |groups| && forall j :: 0 <= j < i ==> groups[j].name != groups[i].name
    ensures Read(groups, groups[i].name) == Some(groups[i].replicas)
  {
    if i > 0 { ReadsOwnReplicas(groups[1..], i - 1); }
  }

  lemma TotalIsReady(workloads: seq<Observed>)
    ensures TotalReady(workloads) == ReadyIn(workloads, None)
  {
    for i := 0 to |workloads|
      invariant TotalReady(workloads[..i]) == ReadyIn(workloads[..i], None)
    {
      TakeNext(workloads, i);
      ReadySnoc(workloads[..i], workloads[i], None);
      assert workloads[..i + 1][..i] == workloads[..i];
    }
    TakeAll(workloads);
  }

  /** Group by group, the entries of the status add up to what is ready in the workloads, and all of them together
      to the number that the status gives, as int32. */
  lemma RunningAddsUp(groups: seq<NodeGroup>, workloads: seq<Observed>, status: ReplicasStatus, group: string)
    requires IsStatus(groups, workloads, status) && forall n :: n in Replicas(groups) ==> !Marked(n)
    ensures RunningIn(multiset(status.groups), Some(if group in Replicas(groups) then group else group + "(-)"))
         == ReadyIn(workloads, Some(group))
    ensures status.running == Wrap32(RunningIn(multiset(status.groups), None)) == Wrap32(ReadyIn(workloads, None))
  {
    var expected := Replicas(groups);
    var entries, missing := Entries(expected, workloads), MissingAmong(expected, workloads, expected.Keys);
    EntriesAddUp(expected, workloads, Some(group));
    EntriesAddUp(expected, workloads, None);
    IdleEntriesAddNothing(multiset(entries), multiset(missing), Some(EntryName(expected, group)));
    IdleEntriesAddNothing(multiset(entries), multiset(missing), None);
    TotalIsReady(workloads);
  }

  /** What the entries say of the target: that of the group if it is expected, and zero if not; an entry for a group
      that is not there says that nothing runs. */
  lemma EntriesSayTarget(groups: seq<NodeGroup>, workloads: seq<Observed>, status: ReplicasStatus, e: Entry)
    requires IsStatus(groups, workloads, status) && e in status.groups
    ensures e.name in Replicas(groups) && !Marked(e.name) ==> e.target == Replicas(groups)[e.name]
    ensures e.name !in Replicas(groups) ==> e.target == 0 && e.present && Marked(e.name)
    ensures !e.present ==> e.running == 0 && forall o :: o in workloads ==> o.workload.group != e.name
  {
    InStatus(groups, workloads, status, e);
    if o :| o in workloads && e == EntryOf(Replicas(groups), o) {
      UnexpectedIsMarked(o.workload.group);
    }
  }
}
