/** Syncing the workloads of a component with its node groups: what to delete, what to create or
    update, and what the cluster holds afterwards. */
module GroupSync {
  import opened Lex

  /** The generation label of a workload; one that is missing or no number reads as generation 0. */
  datatype Stamp = NoSync | Generation(number: int)

  datatype Workload = Workload(name: string, group: string, stamp: Stamp)

  /** What a pass works towards: the name prefix of the component, its expected groups (none while
      this kind of workload is not in use) and the generation of the RisingWave snapshot. */
  datatype Target = Target(prefix: string, expected: set<string>, generation: int)

  function GroupSuffix(group: string): string {
    if group == "" then "" else "-" + group
  }

  function NameOf(t: Target, group: string): string {
    t.prefix + GroupSuffix(group)
  }

  lemma NamesDiffer(t: Target, g: string, h: string)
    requires NameOf(t, g) == NameOf(t, h)
    ensures g == h
  {
    assert GroupSuffix(g) == NameOf(t, g)[|t.prefix|..] == GroupSuffix(h);
    if g != "" && h != "" { assert g == GroupSuffix(g)[1..] && h == GroupSuffix(h)[1..]; }
  }

  /** The text of a name: the prefix alone for the group without a name, else the prefix, a dash and the group. */
  lemma NameSpelled(t: Target, group: string, i: nat)
    ensures |NameOf(t, group)| == |t.prefix| + if group == "" then 0 else 1 + |group|
    ensures i < |t.prefix| ==> NameOf(t, group)[i] == t.prefix[i]
    ensures group != "" ==> NameOf(t, group)[|t.prefix|] == '-'
    ensures i < |group| ==> NameOf(t, group)[|t.prefix| + 1 + i] == group[i]
  {
    assert NameOf(t, group)[|t.prefix|..] == GroupSuffix(group);
  }

  function NewWorkload(t: Target, group: string): Workload {
    Workload(NameOf(t, group), group, Generation(t.generation))
  }

  predicate IsObjectSynced(t: Target, w: Workload) {
    w.stamp.NoSync? || w.stamp.number >= t.generation
  }

  // ---- What a pass decides ----

  function FirstOf(objects: seq<Workload>, group: string): (r: Option<Workload>)
    ensures r.Some? ==> r.value in objects && r.value.group == group
    ensures r.None? <==> forall w :: w in objects ==> w.group != group
  {
    if objects == [] then None
    else if objects[0].group == group then Some(objects[0])
    else FirstOf(objects[1..], group)
  }

  /** The object at index i goes if an earlier one has its group, or if it is outdated and its group
      is not expected. */
  predicate Doomed(t: Target, objects: seq<Workload>, i: nat)
    requires i < |objects|
  {
    FirstOf(objects[..i], objects[i].group).Some? || (!IsObjectSynced(t, objects[i]) && objects[i].group !in t.expected)
  }

  function ToDelete(t: Target, objects: seq<Workload>, n: nat): seq<Workload>
    requires n <= |objects|
  {
    if n == 0 then [] else ToDelete(t, objects, n - 1) + if Doomed(t, objects, n - 1) then [objects[n - 1]] else []
  }

  /** An expected group is synced if it has no object, or if its first object is outdated. */
  predicate Outdated(t: Target, objects: seq<Workload>, group: string) {
    group in t.expected && (FirstOf(objects, group).None? || !IsObjectSynced(t, FirstOf(objects, group).value))
  }

  ghost predicate IsPlan(t: Target, objects: seq<Workload>, toSync: map<string, Option<Workload>>) {
    && (forall g :: g in toSync <==> Outdated(t, objects, g))
    && forall g :: g in toSync ==> toSync[g] == FirstOf(objects, g)
  }

  lemma FirstOfPrefix(objects: seq<Workload>, i: nat, group: string)
    requires i < |objects|
    ensures FirstOf(objects[..i + 1], group) ==
            if FirstOf(objects[..i], group).Some? || objects[i].group != group then FirstOf(objects[..i], group)
            else Some(objects[i])
  {
    FirstOfAppend(objects[..i], objects[i], group);
    assert objects[..i + 1] == objects[..i] + [objects[i]];
  }

  lemma {:induction false} FirstOfAppend(objects: seq<Workload>, w: Workload, group: string)
    ensures FirstOf(objects + [w], group) ==
            if FirstOf(objects, group).Some? || w.group != group then FirstOf(objects, group) else Some(w)
  {
    if objects != [] && objects[0].group != group {
      FirstOfAppend(objects[1..], w, group);
      assert (objects + [w])[1..] == objects[1..] + [w];
    }
  }

  /** The first loop, over the objects: outdated objects of expected groups seen so far. */
  ghost predicate Seen(t: Target, objects: seq<Workload>, observed: set<string>, toSync: map<string,
                       Option<Workload>>) {
    && (forall g :: g in observed <==> FirstOf(objects, g).Some?)
    && (forall g :: g in toSync <==> Outdated(t, objects, g) && FirstOf(objects, g).Some?)
    && forall g :: g in toSync ==> toSync[g] == FirstOf(objects, g)
  }

  lemma SeenStep(t: Target, objects: seq<Workload>, i: nat, observed: set<string>, toSync: map<string,
                 Option<Workload>>)
    requires i < |objects| && Seen(t, objects[..i], observed, toSync)
    ensures var w := objects[i];
            Seen(t, objects[..i + 1], observed + {w.group},
                 if w.group !in observed && !IsObjectSynced(t, w) && w.group in t.expected
                 then toSync[w.group := Some(w)] else toSync)
  {
    forall g ensures FirstOf(objects[..i + 1], g) ==
            if FirstOf(objects[..i], g).Some? || objects[i].group != g then FirstOf(objects[..i], g)
            else Some(objects[i])
    {
      FirstOfPrefix(objects, i, g);
    }
  }

  method Plan(t: Target, objects: seq<Workload>)
    returns (toDelete: seq<Workload>, toSync: map<string, Option<Workload>>)
    ensures toDelete == ToDelete(t, objects, |objects|) && IsPlan(t, objects, toSync)
  {
    var observed: set<string> := {};
    toDelete, toSync := [], map[];
    for i := 0 to |objects|
      invariant toDelete == ToDelete(t, objects, i) && Seen(t, objects[..i], observed, toSync)
    {
      SeenStep(t, objects, i, observed, toSync);
      var w := objects[i];
      if w.group in observed {
        toDelete := toDelete + [w];
      } else if !IsObjectSynced(t, w) {
        if w.group in t.expected {
          toSync := toSync[w.group := Some(w)];
        } else {
          toDelete := toDelete + [w];
        }
      }
      observed := observed + {w.group};
    }
    assert objects[..|objects|] == objects;
    toSync := AddMissing(t, objects, observed, toSync);
  }

  /** The second loop, over the expected groups: those without an object are to be created. */
  method AddMissing(t: Target, objects: seq<Workload>, observed: set<string>, toSync0: map<string, Option<Workload>>)
    returns (toSync: map<string, Option<Workload>>)
    requires Seen(t, objects, observed, toSync0)
    ensures IsPlan(t, objects, toSync)
  {
    toSync := toSync0;
    var todo := t.expected;
    while todo != {}
      invariant todo <= t.expected
      invariant forall g :: g in toSync <==> Outdated(t, objects, g) && (FirstOf(objects, g).Some? || g !in todo)
      invariant forall g :: g in toSync ==> toSync[g] == FirstOf(objects, g)
      decreases todo
    {
      var g := AnyOf(todo);
      if g !in observed {
        toSync := toSync[g := None];
      }
      todo := todo - {g};
    }
  }

  // ---- What a pass does ----

  ghost function Names(ws: seq<Workload>): (r: set<string>)
    ensures forall n :: n in r <==> exists w :: w in ws && w.name == n
  {
    set w | w in ws :: w.name
  }

  /** A create leaves a name that is taken alone; an update replaces the object. */
  function AfterSyncObject(objects: map<string, Workload>, t: Target, group: string, seen: Option<Workload>)
    : map<string, Workload>
  {
    if seen.None? && NameOf(t, group) in objects then objects
    else objects[NameOf(t, group) := NewWorkload(t, group)]
  }

  /** What the API server answers to a create or update. An update refused as invalid is replaced by a
      delete and a create if the operator may do so, that is after a change of its own version or when
      forced, and each of the two can fail in turn. */
  datatype Answer = Accepted | Refused | Invalid(mayReplace: bool, deleted: bool, created: bool)

  datatype Outcome = Completed | Errored | Panicked

  predicate Replaces(seen: Option<Workload>, answer: Answer) {
    seen.Some? && answer.Invalid? && answer.mayReplace && answer.deleted
  }

  predicate Succeeds(seen: Option<Workload>, answer: Answer) {
    answer.Accepted? || (Replaces(seen, answer) && answer.created)
  }

  function AfterAnswer(objects: map<string, Workload>, t: Target, group: string, seen: Option<Workload>, answer: Answer)
    : map<string, Workload>
  {
    if Succeeds(seen, answer) then AfterSyncObject(objects, t, group, seen)
    else if Replaces(seen, answer) then objects - {NameOf(t, group)}
    else objects
  }

  function Lookup(objects: map<string, Workload>, n: string): Option<Workload> {
    if n in objects then Some(objects[n]) else None
  }

  /** What stands under the name of `group` after a pass. */
  ghost function AfterPass(t: Target, listing: seq<Workload>, before: map<string, Workload>, group: string)
    : Option<Workload>
  {
    var base := before - Names(ToDelete(t, listing, |listing|));
    if Outdated(t, listing, group) && (FirstOf(listing, group).Some? || NameOf(t, group) !in base)
    then Some(NewWorkload(t, group))
    else Lookup(base, NameOf(t, group))
  }

  ghost predicate IsAfter(t: Target, listing: seq<Workload>, done: set<string>, before: map<string, Workload>,
                          after: map<string, Workload>) {
    var base := before - Names(ToDelete(t, listing, |listing|));
    && (forall g :: g in done ==> Lookup(after, NameOf(t, g)) == AfterPass(t, listing, before, g))
    && forall n :: (forall g :: g in done ==> NameOf(t, g) != n) ==> Lookup(after, n) == Lookup(base, n)
  }

  lemma AfterOneMore(t: Target, listing: seq<Workload>, done: set<string>, before: map<string, Workload>,
                     now: map<string, Workload>, group: string)
    requires IsAfter(t, listing, done, before, now) && Outdated(t, listing, group) && group !in done
    ensures IsAfter(t, listing, done + {group}, before, AfterSyncObject(now, t, group, FirstOf(listing, group)))
  {
    forall g | g in done ensures NameOf(t, g) != NameOf(t, group) {
      if NameOf(t, g) == NameOf(t, group) { NamesDiffer(t, g, group); }
    }
    assert Lookup(now, NameOf(t, group)) == Lookup(before - Names(ToDelete(t, listing, |listing|)), NameOf(t, group));
  }

  /** An object that would be updated under another name than its own: the factory check panics. */
  predicate Misnamed(t: Target, listing: seq<Workload>, group: string) {
    && Outdated(t, listing, group) && FirstOf(listing, group).Some?
    && FirstOf(listing, group).value.name != NameOf(t, group)
  }

  /** What can stand under a name once a pass has stopped anywhere: what was there, nothing if it was to
      be deleted or replaced, or the new workload of a group that was to be synced. */
  ghost predicate StoppedAt(t: Target, listing: seq<Workload>, before: map<string, Workload>,
                            after: map<string, Workload>, n: string) {
    || Lookup(after, n) == Lookup(before, n)
    || (n !in after && n in Names(ToDelete(t, listing, |listing|)))
    || exists g :: SyncedAt(t, listing, after, g, n)
  }

  ghost predicate SyncedAt(t: Target, listing: seq<Workload>, after: map<string, Workload>, g: string, n: string) {
    && NameOf(t, g) == n && Outdated(t, listing, g)
    && (Lookup(after, n) == Some(NewWorkload(t, g)) || (n !in after && FirstOf(listing, g).Some?))
  }

  ghost predicate Stopped(t: Target, listing: seq<Workload>, before: map<string, Workload>,
                          after: map<string, Workload>) {
    forall n :: StoppedAt(t, listing, before, after, n)
  }

  lemma StoppedAfterSync(t: Target, listing: seq<Workload>, before: map<string, Workload>, now: map<string, Workload>,
                         group: string, answer: Answer)
    requires Stopped(t, listing, before, now) && Outdated(t, listing, group)
    ensures Stopped(t, listing, before, AfterAnswer(now, t, group, FirstOf(listing, group), answer))
  {
    var after := AfterAnswer(now, t, group, FirstOf(listing, group), answer);
    forall n ensures StoppedAt(t, listing, before, after, n) {
      assert StoppedAt(t, listing, before, now, n);
      if after == now {
      } else if n == NameOf(t, group) {
        assert SyncedAt(t, listing, after, group, n);
      } else {
        assert Lookup(after, n) == Lookup(now, n);
        if g :| SyncedAt(t, listing, now, g, n) { assert SyncedAt(t, listing, after, g, n); }
      }
    }
  }

  class Cluster {
    var objects: map<string, Workload>

    constructor (objects: map<string, Workload>)
      ensures this.objects == objects
    {
      this.objects := objects;
    }

    method Delete(name: string)
      modifies this
      ensures objects == old(objects) - {name}
    {
      objects := objects - {name};
    }

    method SyncObject(t: Target, group: string, seen: Option<Workload>, answer: Answer) returns (outcome: Outcome)
      requires seen.Some? ==> !IsObjectSynced(t, seen.value)
      modifies this
      ensures outcome.Panicked? <==> seen.Some? && seen.value.name != NameOf(t, group)
      ensures outcome.Completed? <==> !outcome.Panicked? && Succeeds(seen, answer)
      ensures objects == if outcome.Panicked? then old(objects) else AfterAnswer(old(objects), t, group, seen, answer)
      ensures var n, taken := NameOf(t, group), seen.None? && NameOf(t, group) in old(objects);
        match answer
        case Accepted =>
          outcome.Completed? ==> objects == if taken then old(objects) else old(objects)[n := NewWorkload(t, group)]
        case Refused => !outcome.Completed? && objects == old(objects)
        case Invalid(mayReplace, deleted, created) =>
          if seen.None? || outcome.Panicked? || !mayReplace || !deleted
          then !outcome.Completed? && objects == old(objects)
          else if !created then outcome.Errored? && objects == old(objects) - {n}
          else outcome.Completed? && objects == old(objects)[n := NewWorkload(t, group)]
      ensures answer.Accepted? ==> !outcome.Errored?
    {
      var newObj := NewWorkload(t, group);
      if seen.None? {
        if !answer.Accepted? {
          return Errored;
        }
        if newObj.name !in objects {
          objects := objects[newObj.name := newObj];
        }
        return Completed;
      }
      if newObj.name != seen.value.name {
        return Panicked;
      }
      if answer.Invalid? {
        if !answer.mayReplace || !answer.deleted {
          return Errored;
        }
        Delete(seen.value.name);
        if !answer.created {
          return Errored;
        }
      } else if answer.Refused? {
        return Errored;
      }
      objects := objects[newObj.name := newObj];
      outcome := Completed;
    }

    /** One pass. `deletes` says which deletes go through, `answers` what comes of each create or update. */
    method SyncComponentGroupWorkloads(t: Target, listing: seq<Workload>, deletes: string -> bool,
                                       answers: string -> Answer) returns (outcome: Outcome)
      modifies this
      ensures outcome.Panicked? ==> exists g :: Misnamed(t, listing, g)
      ensures outcome.Completed? ==> !exists g :: Misnamed(t, listing, g)
      ensures outcome.Completed? ==> IsAfter(t, listing, t.expected, old(objects), objects)
      ensures Stopped(t, listing, old(objects), objects)
      ensures outcome.Errored? ==> !AllSucceed(t, listing, deletes, answers)
      ensures outcome.Completed? ==> AllSucceed(t, listing, deletes, answers)
    {
      var toDelete, toSync := Plan(t, listing);
      ghost var before := objects;
      for i := 0 to |toDelete|
        invariant objects == before - Names(toDelete[..i])
        invariant forall n :: n in Names(toDelete[..i]) ==> deletes(n)
      {
        TakeNext(toDelete, i);
        assert Names(toDelete[..i + 1]) == Names(toDelete[..i]) + {toDelete[i].name};
        if !deletes(toDelete[i].name) {
          assert Names(toDelete[..i]) <= Names(toDelete);
          assert toDelete[i] in toDelete;
          return Errored;
        }
        Delete(toDelete[i].name);
      }
      TakeAll(toDelete);
      outcome := SyncOutdated(t, listing, toSync, answers, before);
      if outcome.Completed? {
        SyncedAll(t, listing, toSync, before, objects);
      }
    }

    method SyncOutdated(t: Target, listing: seq<Workload>, toSync: map<string, Option<Workload>>,
                        answers: string -> Answer, ghost before: map<string, Workload>) returns (outcome: Outcome)
      requires IsPlan(t, listing, toSync) && IsAfter(t, listing, {}, before, objects)
      requires Stopped(t, listing, before, objects)
      modifies this
      ensures outcome.Panicked? ==> exists g :: Misnamed(t, listing, g)
      ensures outcome.Completed? ==> forall g :: !Misnamed(t, listing, g)
      ensures outcome.Completed? ==> IsAfter(t, listing, toSync.Keys, before, objects)
      ensures Stopped(t, listing, before, objects)
      ensures outcome.Errored? ==> exists g :: Outdated(t, listing, g) && !Succeeds(FirstOf(listing, g), answers(g))
      ensures outcome.Completed? ==> forall g :: Outdated(t, listing, g) ==> Succeeds(FirstOf(listing, g), answers(g))
    {
      var todo := toSync.Keys;
      while todo != {}
        invariant todo <= toSync.Keys && IsAfter(t, listing, toSync.Keys - todo, before, objects)
        invariant forall g :: g in toSync.Keys - todo ==>
                    !Misnamed(t, listing, g) && Succeeds(FirstOf(listing, g), answers(g))
        invariant Stopped(t, listing, before, objects)
        decreases todo
      {
        var g := AnyOf(todo);
        AfterOneMore(t, listing, toSync.Keys - todo, before, objects, g);
        StoppedAfterSync(t, listing, before, objects, g, answers(g));
        outcome := SyncObject(t, g, toSync[g], answers(g));
        if !outcome.Completed? {
          assert outcome.Panicked? ==> Misnamed(t, listing, g);
          return;
        }
        assert toSync.Keys - (todo - {g}) == toSync.Keys - todo + {g};
        todo := todo - {g};
      }
      assert toSync.Keys - todo == toSync.Keys;
      outcome := Completed;
    }
  }

  ghost predicate AllSucceed(t: Target, listing: seq<Workload>, deletes: string -> bool, answers: string -> Answer) {
    && (forall n :: n in Names(ToDelete(t, listing, |listing|)) ==> deletes(n))
    && forall g :: Outdated(t, listing, g) ==> Succeeds(FirstOf(listing, g), answers(g))
  }

  /** Groups that are not outdated keep what they have, so the pass speaks for every group. */
  lemma SyncedAll(t: Target, listing: seq<Workload>, toSync: map<string, Option<Workload>>,
                  before: map<string, Workload>, after: map<string, Workload>)
    requires IsPlan(t, listing, toSync) && IsAfter(t, listing, toSync.Keys, before, after)
    ensures IsAfter(t, listing, t.expected, before, after)
  {
    forall g | g in t.expected ensures Lookup(after, NameOf(t, g)) == AfterPass(t, listing, before, g) {
      if g !in toSync {
        forall h | h in toSync ensures NameOf(t, h) != NameOf(t, g) {
          if NameOf(t, h) == NameOf(t, g) { NamesDiffer(t, h, g); }
        }
      }
    }
  }
}
