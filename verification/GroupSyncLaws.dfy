/** What a sync pass guarantees: it converges, keeps newer objects, and has nothing left to do. */
module GroupSyncLaws {
  import opened Lex
  import opened GroupSync

  /** The list is the cluster, in some order. */
  ghost predicate Lists(listing: seq<Workload>, objects: map<string, Workload>) {
    && (forall i :: 0 <= i < |listing| ==> listing[i].name in objects && objects[listing[i].name] == listing[i])
    && (forall n :: n in objects ==> objects[n] in listing && objects[n].name == n)
    && forall i, j :: 0 <= i < j < |listing| ==> listing[i].name != listing[j].name
  }

  ghost predicate NamedByGroup(t: Target, objects: map<string, Workload>) {
    forall n :: n in objects ==> objects[n].name == n == NameOf(t, objects[n].group)
  }

  lemma NamesSnoc(ws: seq<Workload>, w: Workload)
    ensures Names(ws + [w]) == Names(ws) + {w.name}
  {}

  ghost predicate DoomedAs(t: Target, listing: seq<Workload>, i: nat, name: string) {
    i < |listing| && Doomed(t, listing, i) && listing[i].name == name
  }

  lemma {:induction false} DeletedExactly(t: Target, listing: seq<Workload>, n: nat, name: string)
    requires n <= |listing|
    ensures name in Names(ToDelete(t, listing, n)) <==> exists i :: 0 <= i < n && DoomedAs(t, listing, i, name)
  {
    if n > 0 {
      DeletedExactly(t, listing, n - 1, name);
      var rest := ToDelete(t, listing, n - 1);
      NamesSnoc(rest, listing[n - 1]);
      assert rest + [] == rest;
      assert name in Names(ToDelete(t, listing, n)) <==> name in Names(rest) || DoomedAs(t, listing, n - 1, name);
    }
  }

  /** Which objects a pass deletes, for every list: the outdated ones of unexpected groups, and every
      later one of a group, whatever its generation. */
  lemma ObjectDeletedExactly(t: Target, listing: seq<Workload>, i: nat)
    requires i < |listing| && forall i, j :: 0 <= i < j < |listing| ==> listing[i].name != listing[j].name
    ensures listing[i].name in Names(ToDelete(t, listing, |listing|)) <==>
            (exists j :: 0 <= j < i && listing[j].group == listing[i].group)
            || (listing[i].stamp.Generation? && listing[i].stamp.number < t.generation
                && listing[i].group !in t.expected)
  {
    DeletedExactly(t, listing, |listing|, listing[i].name);
    var group := listing[i].group;
    assert FirstOf(listing[..i], group).Some? <==> exists j :: 0 <= j < i && listing[j].group == group by {
      if j :| 0 <= j < i && listing[j].group == listing[i].group {
        assert listing[..i][j] in listing[..i];
      }
    }
    assert Doomed(t, listing, i) ==> DoomedAs(t, listing, i, listing[i].name);
    if k :| 0 <= k < |listing| && DoomedAs(t, listing, k, listing[i].name) {
      assert k == i;
    }
  }

  /** A duplicate is deleted even if it was created from a newer generation. */
  lemma DuplicateOfNewerGenerationIsDeleted()
    ensures var t := Target("rw-meta", {""}, 1);
            var listing := [Workload("rw-meta", "", Generation(1)), Workload("rw-meta-x", "", Generation(9))];
            IsObjectSynced(t, listing[1]) && listing[1].name in Names(ToDelete(t, listing, 2))
  {
    var t := Target("rw-meta", {""}, 1);
    var listing := [Workload("rw-meta", "", Generation(1)), Workload("rw-meta-x", "", Generation(9))];
    assert listing[0].name != listing[1].name;
    ObjectDeletedExactly(t, listing, 1);
  }

  /** The first object of its group. */
  ghost predicate FirstWith(listing: seq<Workload>, i: nat, group: string) {
    i < |listing| && listing[i].group == group && forall j :: 0 <= j < i ==> listing[j].group != group
  }

  lemma {:induction false} FirstOfIs(listing: seq<Workload>, i: nat, group: string)
    requires FirstWith(listing, i, group)
    ensures FirstOf(listing, group) == Some(listing[i])
  {
    if i > 0 {
      assert FirstWith(listing[1..], i - 1, group);
      FirstOfIs(listing[1..], i - 1, group);
    }
  }

  /** Which groups a pass works on, for every list: expected ones without an object, which it creates, and expected
      ones whose first object is of an older generation, which it updates. */
  lemma GroupSyncedExactly(t: Target, listing: seq<Workload>, toSync: map<string, Option<Workload>>, group: string)
    requires IsPlan(t, listing, toSync)
    ensures (forall w :: w in listing ==> w.group != group) ==>
              (group in toSync <==> group in t.expected) && (group in toSync ==> toSync[group] == None)
    ensures forall i: nat :: FirstWith(listing, i, group) ==>
              && (group in toSync <==> group in t.expected && listing[i].stamp.Generation?
                                       && listing[i].stamp.number < t.generation)
              && (group in toSync ==> toSync[group] == Some(listing[i]))
  {
    forall i: nat | FirstWith(listing, i, group) ensures FirstOf(listing, group) == Some(listing[i]) {
      FirstOfIs(listing, i, group);
    }
  }

  // ---- When names follow groups ----

  lemma FirstOfGroup(t: Target, listing: seq<Workload>, before: map<string, Workload>, group: string)
    requires Lists(listing, before) && NamedByGroup(t, before)
    ensures FirstOf(listing, group) == Lookup(before, NameOf(t, group))
  {
    var first := FirstOf(listing, group);
    if first.Some? {
      assert first.value in listing;
    } else if NameOf(t, group) in before {
      assert before[NameOf(t, group)] in listing;
      NamesDiffer(t, before[NameOf(t, group)].group, group);
    }
  }

  lemma NoDuplicates(t: Target, listing: seq<Workload>, before: map<string, Workload>, i: nat, j: nat)
    requires Lists(listing, before) && NamedByGroup(t, before) && j < i < |listing|
    ensures listing[j].group != listing[i].group
  {
    assert listing[j].name != listing[i].name;
  }

  /** With names that follow groups the factory check never panics. */
  lemma NeverMisnamed(t: Target, listing: seq<Workload>, before: map<string, Workload>, group: string)
    requires Lists(listing, before) && NamedByGroup(t, before)
    ensures !Misnamed(t, listing, group)
  {
    FirstOfGroup(t, listing, before, group);
  }

  lemma StaysInBase(t: Target, listing: seq<Workload>, before: map<string, Workload>, group: string)
    requires Lists(listing, before) && NamedByGroup(t, before)
    ensures var n := NameOf(t, group);
            Lookup(before - Names(ToDelete(t, listing, |listing|)), n) ==
            if n in before && (IsObjectSynced(t, before[n]) || group in t.expected) then Some(before[n]) else None
  {
    var n := NameOf(t, group);
    if n in before {
      NamesDiffer(t, before[n].group, group);
      var i :| 0 <= i < |listing| && listing[i] == before[n];
      ObjectDeletedExactly(t, listing, i);
      forall j | 0 <= j < i ensures listing[j].group != listing[i].group { NoDuplicates(t, listing, before, i, j); }
    }
  }

  /** What a pass leaves under the name of every group. */
  function Wanted(t: Target, before: map<string, Workload>, group: string): Option<Workload> {
    var n := NameOf(t, group);
    if n in before && IsObjectSynced(t, before[n]) then Some(before[n])
    else if group in t.expected then Some(NewWorkload(t, group))
    else None
  }

  lemma PassLeavesWanted(t: Target, listing: seq<Workload>, before: map<string, Workload>, after: map<string, Workload>,
                         group: string)
    requires Lists(listing, before) && NamedByGroup(t, before) && IsAfter(t, listing, t.expected, before, after)
    ensures Lookup(after, NameOf(t, group)) == Wanted(t, before, group)
  {
    FirstOfGroup(t, listing, before, group);
    StaysInBase(t, listing, before, group);
    if group !in t.expected {
      forall g | g in t.expected ensures NameOf(t, g) != NameOf(t, group) {
        if NameOf(t, g) == NameOf(t, group) { NamesDiffer(t, g, group); }
      }
    }
  }

  lemma AfterIsNamed(t: Target, listing: seq<Workload>, before: map<string, Workload>, after: map<string, Workload>,
                     n: string)
    requires Lists(listing, before) && NamedByGroup(t, before) && IsAfter(t, listing, t.expected, before, after)
    requires n in after
    ensures after[n].name == n == NameOf(t, after[n].group) && IsObjectSynced(t, after[n])
  {
    if g :| g in t.expected && NameOf(t, g) == n {
      PassLeavesWanted(t, listing, before, after, g);
      if n in before { NamesDiffer(t, before[n].group, g); }
    } else {
      assert Lookup(after, n) == Lookup(before - Names(ToDelete(t, listing, |listing|)), n);
      PassLeavesWanted(t, listing, before, after, before[n].group);
    }
  }

  /** A pass that makes all its calls leaves every expected group present and up to date, nothing
      outdated, and every up-to-date object as it was. */
  lemma PassConverges(t: Target, listing: seq<Workload>, before: map<string, Workload>, after: map<string, Workload>)
    requires Lists(listing, before) && NamedByGroup(t, before) && IsAfter(t, listing, t.expected, before, after)
    ensures NamedByGroup(t, after)
    ensures forall g :: g in t.expected ==> NameOf(t, g) in after
    ensures forall n :: n in after ==> IsObjectSynced(t, after[n])
    ensures forall n :: n in before && IsObjectSynced(t, before[n]) ==> n in after && after[n] == before[n]
  {
    forall n | n in after ensures after[n].name == n == NameOf(t, after[n].group) && IsObjectSynced(t, after[n]) {
      AfterIsNamed(t, listing, before, after, n);
    }
    forall g | g in t.expected ensures NameOf(t, g) in after { PassLeavesWanted(t, listing, before, after, g); }
    forall n | n in before && IsObjectSynced(t, before[n]) ensures n in after && after[n] == before[n] {
      PassLeavesWanted(t, listing, before, after, before[n].group);
    }
  }

  /** What a pass makes of one object, by its generation: one that carries none or is not older is left alone; an
      older one is brought to the generation at hand if its group is expected, and deleted if not. */
  lemma PassUpdatesExactly(t: Target, listing: seq<Workload>, before: map<string, Workload>,
                           after: map<string, Workload>, n: string)
    requires Lists(listing, before) && NamedByGroup(t, before) && IsAfter(t, listing, t.expected, before, after)
    requires n in before
    ensures match before[n].stamp
      case NoSync => n in after && after[n] == before[n]
      case Generation(number) =>
        if number >= t.generation then n in after && after[n] == before[n]
        else if before[n].group in t.expected
        then n in after && after[n] == Workload(n, before[n].group, Generation(t.generation))
        else n !in after
  {
    PassLeavesWanted(t, listing, before, after, before[n].group);
  }

  /** After a pass no object is older than the generation at hand, every expected group has one, and those it had to
      create are of that generation. */
  lemma PassMeetsGeneration(t: Target, listing: seq<Workload>, before: map<string, Workload>,
                            after: map<string, Workload>)
    requires Lists(listing, before) && NamedByGroup(t, before) && IsAfter(t, listing, t.expected, before, after)
    ensures forall n :: n in after ==> after[n].stamp.NoSync? || after[n].stamp.number >= t.generation
    ensures forall g :: g in t.expected ==> exists n :: n in after && after[n].group == g
    ensures forall n :: n in after && n !in before ==>
              after[n].group in t.expected && after[n] == Workload(n, after[n].group, Generation(t.generation))
  {
    PassConverges(t, listing, before, after);
    forall g | g in t.expected ensures exists n :: n in after && after[n].group == g {
      assert NameOf(t, g) in after && after[NameOf(t, g)].name == NameOf(t, after[NameOf(t, g)].group);
      NamesDiffer(t, after[NameOf(t, g)].group, g);
    }
    forall n | n in after && n !in before
      ensures after[n].group in t.expected && after[n] == Workload(n, after[n].group, Generation(t.generation))
    {
      PassLeavesWanted(t, listing, before, after, after[n].group);
    }
  }

  /** The next pass finds nothing to delete, to create or to update. */
  lemma SecondPassIsIdle(t: Target, listing: seq<Workload>, before: map<string, Workload>, after: map<string, Workload>,
                         relisting: seq<Workload>)
    requires Lists(listing, before) && NamedByGroup(t, before) && IsAfter(t, listing, t.expected, before, after)
    requires Lists(relisting, after)
    ensures ToDelete(t, relisting, |relisting|) == [] && IsPlan(t, relisting, map[])
  {
    PassConverges(t, listing, before, after);
    forall g ensures !Outdated(t, relisting, g) {
      FirstOfGroup(t, relisting, after, g);
    }
    forall i | 0 <= i < |relisting| ensures !Doomed(t, relisting, i) { KeptByPass(t, relisting, after, i); }
    NothingToDelete(t, relisting, |relisting|);
  }

  lemma KeptByPass(t: Target, listing: seq<Workload>, objects: map<string, Workload>, i: nat)
    requires Lists(listing, objects) && NamedByGroup(t, objects) && i < |listing| && IsObjectSynced(t, listing[i])
    ensures !Doomed(t, listing, i)
  {
    forall w | w in listing[..i] ensures w.group != listing[i].group {
      var j :| 0 <= j < i && listing[j] == w;
      NoDuplicates(t, listing, objects, i, j);
    }
  }

  lemma NothingToDelete(t: Target, listing: seq<Workload>, n: nat)
    requires n <= |listing| && forall i :: 0 <= i < |listing| ==> !Doomed(t, listing, i)
    ensures ToDelete(t, listing, n) == []
  {
    for k := 0 to n
      invariant ToDelete(t, listing, k) == []
    {
    }
  }

  // ---- When a pass stops half-way ----

  lemma StoppedAtGroup(t: Target, listing: seq<Workload>, before: map<string, Workload>, after: map<string, Workload>,
                       group: string)
    requires Lists(listing, before) && NamedByGroup(t, before) && Stopped(t, listing, before, after)
    ensures var n := NameOf(t, group);
            || Lookup(after, n) == Lookup(before, n)
            || (n !in after && n in before && !IsObjectSynced(t, before[n]))
            || (Lookup(after, n) == Some(NewWorkload(t, group)) && group in t.expected
                && (n in before ==> !IsObjectSynced(t, before[n])))
  {
    var n := NameOf(t, group);
    assert StoppedAt(t, listing, before, after, n);
    FirstOfGroup(t, listing, before, group);
    StaysInBase(t, listing, before, group);
    if Lookup(after, n) != Lookup(before, n) {
      if g :| SyncedAt(t, listing, after, g, n) {
        NamesDiffer(t, g, group);
      }
    }
  }

  lemma StoppedIsNamed(t: Target, listing: seq<Workload>, before: map<string, Workload>, after: map<string, Workload>,
                       n: string)
    requires Lists(listing, before) && NamedByGroup(t, before) && Stopped(t, listing, before, after)
    requires n in after
    ensures after[n].name == n == NameOf(t, after[n].group)
  {
    assert StoppedAt(t, listing, before, after, n);
  }

  /** Whatever calls fail, names go on following groups, no up-to-date object is touched, and what is
      wanted under every group's name is the same as before. */
  lemma StoppedPassIsHarmless(t: Target, listing: seq<Workload>, before: map<string, Workload>,
                              after: map<string, Workload>)
    requires Lists(listing, before) && NamedByGroup(t, before) && Stopped(t, listing, before, after)
    ensures NamedByGroup(t, after)
    ensures forall n :: n in before && IsObjectSynced(t, before[n]) ==> n in after && after[n] == before[n]
    ensures forall g :: Wanted(t, after, g) == Wanted(t, before, g)
  {
    forall n | n in after ensures after[n].name == n == NameOf(t, after[n].group) {
      StoppedIsNamed(t, listing, before, after, n);
    }
    forall n | n in before && IsObjectSynced(t, before[n]) ensures n in after && after[n] == before[n] {
      StoppedAtGroup(t, listing, before, after, before[n].group);
    }
    forall g ensures Wanted(t, after, g) == Wanted(t, before, g) { StoppedAtGroup(t, listing, before, after, g); }
  }

  /** A pass that stops anywhere and a later one that makes all its calls leave the same cluster as one
      that makes all its calls at once. */
  lemma RetryConverges(t: Target, listing: seq<Workload>, before: map<string, Workload>, stopped: map<string, Workload>,
                       relisting: seq<Workload>, retried: map<string, Workload>, atOnce: map<string, Workload>)
    requires Lists(listing, before) && NamedByGroup(t, before) && Stopped(t, listing, before, stopped)
    requires Lists(relisting, stopped) && IsAfter(t, relisting, t.expected, stopped, retried)
    requires IsAfter(t, listing, t.expected, before, atOnce)
    ensures retried == atOnce
  {
    StoppedPassIsHarmless(t, listing, before, stopped);
    forall g ensures Lookup(retried, NameOf(t, g)) == Lookup(atOnce, NameOf(t, g)) {
      PassLeavesWanted(t, listing, before, atOnce, g);
      PassLeavesWanted(t, relisting, stopped, retried, g);
    }
    PassConverges(t, listing, before, atOnce);
    PassConverges(t, relisting, stopped, retried);
    SameByGroup(t, retried, atOnce);
  }

  lemma SameByGroup(t: Target, a: map<string, Workload>, b: map<string, Workload>)
    requires NamedByGroup(t, a) && NamedByGroup(t, b)
    requires forall g :: Lookup(a, NameOf(t, g)) == Lookup(b, NameOf(t, g))
    ensures a == b
  {
    forall n ensures Lookup(a, n) == Lookup(b, n) {
      if n in a { assert Lookup(a, NameOf(t, a[n].group)) == Lookup(b, NameOf(t, a[n].group)); }
      if n in b { assert Lookup(a, NameOf(t, b[n].group)) == Lookup(b, NameOf(t, b[n].group)); }
    }
    assert forall n :: n in a <==> Lookup(a, n).Some?;
    assert forall n :: n in b <==> Lookup(b, n).Some?;
  }
}
