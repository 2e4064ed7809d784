/** Building a container's environment: a keyed list merge that refines map override, then the sort. */
module EnvMerge {
  import opened Lex
  import opened EnvOrder
  import opened EnvOrderLaws
  import TopologicalSort

  // ---- The keyed merge ----

  /** The index of the first entry that has the key, or the length. */
  function KeyIndex<T>(list: seq<T>, keyPred: T -> bool): (r: nat)
    ensures r <= |list| && (r < |list| ==> keyPred(list[r]))
    ensures forall k :: 0 <= k < r ==> !keyPred(list[k])
  {
    if list == [] || keyPred(list[0]) then 0 else KeyIndex(list[1..], keyPred) + 1
  }

  function Merged<T>(list: seq<T>, val: T, keyPred: T -> bool): seq<T> {
    var i := KeyIndex(list, keyPred);
    if i < |list| then list[i := val] else list + [val]
  }

  ghost predicate FirstWithKey<T>(list: seq<T>, keyPred: T -> bool, i: nat) {
    i < |list| && keyPred(list[i]) && forall k :: 0 <= k < i ==> !keyPred(list[k])
  }

  /** A longer list, as `append` makes it: the old one stays as it was. */
  method Append<T>(list: array<T>, val: T) returns (r: array<T>)
    ensures fresh(r) && r[..] == list[..] + [val]
  {
    r := new T[list.Length + 1](i requires 0 <= i <= list.Length reads list =>
                                  if i < list.Length then list[i] else val);
  }

  /** Writes into the list it was given if the key is there, and into a new one if it is not. */
  method MergeListByKey<T>(list: array<T>, val: T, keyPred: T -> bool) returns (r: array<T>)
    modifies list
    ensures r[..] == Merged(old(list[..]), val, keyPred)
    ensures if KeyIndex(old(list[..]), keyPred) < list.Length then r == list else fresh(r) && list[..] == old(list[..])
    ensures forall i: nat :: FirstWithKey(old(list[..]), keyPred, i) ==> r == list && r[..] == old(list[..])[i := val]
    ensures (forall x :: x in old(list[..]) ==> !keyPred(x)) ==> fresh(r) && r[..] == old(list[..]) + [val]
  {
    for i := 0 to list.Length
      invariant list[..] == old(list[..])
      invariant forall k :: 0 <= k < i ==> !keyPred(list[k])
    {
      if keyPred(list[i]) {
        list[i] := val;
        return list;
      }
    }
    r := Append(list, val);
  }

  method MergeListWhenKeyEquals<T>(list: array<T>, val: T, equals: (T, T) -> bool) returns (r: array<T>)
    modifies list
    ensures r[..] == Merged(old(list[..]), val, v => equals(val, v))
    ensures if KeyIndex(old(list[..]), v => equals(val, v)) < list.Length
            then r == list else fresh(r) && list[..] == old(list[..])
  {
    ghost var keyPred := v => equals(val, v);
    for i := 0 to list.Length
      invariant list[..] == old(list[..])
      invariant forall k :: 0 <= k < i ==> !keyPred(list[k])
    {
      if equals(val, list[i]) {
        assert keyPred(list[i]);
        list[i] := val;
        return list;
      }
    }
    r := Append(list, val);
  }

  // ---- Environment lists as maps ----

  function MergedEnv(list: seq<EnvVar>, val: EnvVar): seq<EnvVar> {
    Merged(list, val, (v: EnvVar) => val.name == v.name)
  }

  /** What each name means when later entries override earlier ones. */
  function Meaning(vars: seq<EnvVar>): map<string, EnvVar> {
    if vars == [] then map[]
    else Meaning(vars[..|vars| - 1])[vars[|vars| - 1].name := vars[|vars| - 1]]
  }

  lemma {:induction false} MeaningIsEntry(vars: seq<EnvVar>, n: string)
    requires n in Meaning(vars)
    ensures Meaning(vars)[n] in vars && Meaning(vars)[n].name == n
  {
    var last := |vars| - 1;
    if n != vars[last].name { MeaningIsEntry(vars[..last], n); }
  }

  function MergedAll(list: seq<EnvVar>, vars: seq<EnvVar>): seq<EnvVar> {
    if vars == [] then list
    else MergedEnv(MergedAll(list, vars[..|vars| - 1]), vars[|vars| - 1])
  }

  /** In a list of distinct names every entry is what its name means. */
  lemma {:induction false} DistinctMeaning(list: seq<EnvVar>, i: nat)
    requires DistinctNames(list) && i < |list|
    ensures list[i].name in Meaning(list) && Meaning(list)[list[i].name] == list[i]
  {
    var last := |list| - 1;
    if i < last { DistinctMeaning(list[..last], i); }
  }

  lemma MergeKeepsNames(list: seq<EnvVar>, val: EnvVar)
    requires DistinctNames(list)
    ensures DistinctNames(MergedEnv(list, val)) && KeepsPositions(list, MergedEnv(list, val))
  {}

  lemma MeaningOfAppend(list: seq<EnvVar>, val: EnvVar)
    ensures Meaning(list + [val]) == Meaning(list)[val.name := val]
  {
    assert (list + [val])[..|list|] == list;
  }

  lemma MergeOverrides(list: seq<EnvVar>, val: EnvVar)
    requires DistinctNames(list)
    ensures Meaning(MergedEnv(list, val)) == Meaning(list)[val.name := val]
  {
    var i := KeyIndex(list, (v: EnvVar) => val.name == v.name);
    if i < |list| {
      assert MergedEnv(list, val) == list[i := val];
      MeaningOfUpdate(list, i, val);
    } else {
      assert MergedEnv(list, val) == list + [val];
      MeaningOfAppend(list, val);
    }
  }

  lemma {:induction false} MeaningOfUpdate(list: seq<EnvVar>, i: nat, val: EnvVar)
    requires DistinctNames(list) && i < |list| && list[i].name == val.name
    ensures Meaning(list[i := val]) == Meaning(list)[val.name := val]
  {
    var last, r := |list| - 1, list[i := val];
    assert Meaning(r) == Meaning(r[..last])[r[last].name := r[last]];
    assert Meaning(list) == Meaning(list[..last])[list[last].name := list[last]];
    if i == last {
      assert r[..last] == list[..last];
    } else {
      assert r[..last] == list[..last][i := val];
      MeaningOfUpdate(list[..last], i, val);
      UpdatesCommute(Meaning(list[..last]), val, list[last]);
    }
  }

  lemma UpdatesCommute(m: map<string, EnvVar>, v: EnvVar, w: EnvVar)
    requires v.name != w.name
    ensures m[v.name := v][w.name := w] == m[w.name := w][v.name := v]
  {}

  lemma OverrideAssociates(m: map<string, EnvVar>, n: map<string, EnvVar>, v: EnvVar)
    ensures (m + n)[v.name := v] == m + n[v.name := v]
  {}

  ghost predicate KeepsPositions(list: seq<EnvVar>, r: seq<EnvVar>) {
    |list| <= |r| && forall i :: 0 <= i < |list| ==> r[i].name == list[i].name
  }

  /** The fold of the merge is map override, keeps names distinct and moves no name. */
  lemma {:induction false} MergeRefinesOverride(list: seq<EnvVar>, vars: seq<EnvVar>)
    requires DistinctNames(list)
    ensures var r := MergedAll(list, vars);
            DistinctNames(r) && KeepsPositions(list, r) && Meaning(r) == Meaning(list) + Meaning(vars)
  {
    if vars != [] {
      var last := |vars| - 1;
      MergeRefinesOverride(list, vars[..last]);
      MergeKeepsNames(MergedAll(list, vars[..last]), vars[last]);
      MergeOverrides(MergedAll(list, vars[..last]), vars[last]);
      OverrideAssociates(Meaning(list), Meaning(vars[..last]), vars[last]);
    }
  }

  // ---- The container ----

  class Container {
    var env: array<EnvVar>

    constructor (vars: array<EnvVar>)
      ensures env == vars
    {
      env := vars;
    }

    /** Merges each of `vars` into `list` by name. */
    static method Fold(list: array<EnvVar>, vars: array<EnvVar>) returns (r: array<EnvVar>)
      requires list != vars
      modifies list
      ensures r == list || fresh(r)
      ensures r[..] == MergedAll(old(list[..]), vars[..])
    {
      r := list;
      ghost var all := vars[..];
      for i := 0 to vars.Length
        invariant (r == list || fresh(r)) && vars[..] == all
        invariant r[..] == MergedAll(old(list[..]), all[..i])
      {
        TakeNext(all, i);
        r := MergeListByName(r, vars[i]);
      }
      TakeAll(all);
    }

    static method MergeListByName(list: array<EnvVar>, val: EnvVar) returns (r: array<EnvVar>)
      modifies list
      ensures r == list || fresh(r)
      ensures r[..] == MergedEnv(old(list[..]), val)
    {
      r := MergeListWhenKeyEquals(list, val, (a: EnvVar, b: EnvVar) => a.name == b.name);
    }

    /** The environment part of the meta container's set-up: the template's variables override the
        defaults, the state store's override both and the meta store's override all. Only the list of
        defaults is written to, so the template's own list stays as it is. */
    method SetupMeta(defaults: array<EnvVar>, stateStore: array<EnvVar>, metaStore: array<EnvVar>)
      requires DistinctNames(defaults[..]) && defaults !in {env, stateStore, metaStore}
      modifies this, defaults
      ensures env == defaults || fresh(env)
      ensures DistinctNames(env[..]) && KeepsPositions(old(defaults[..]), env[..])
      ensures Meaning(env[..]) == Meaning(old(defaults[..])) + Meaning(old(env[..]))
                                  + Meaning(stateStore[..]) + Meaning(metaStore[..])
    {
      SetupWorker(defaults, stateStore);
      ghost var before := env[..];
      env := Fold(env, metaStore);
      MergeRefinesOverride(before, metaStore[..]);
    }

    /** The compute and compactor containers have no meta store variables. */
    method SetupWorker(defaults: array<EnvVar>, stateStore: array<EnvVar>)
      requires DistinctNames(defaults[..]) && defaults !in {env, stateStore}
      modifies this, defaults
      ensures env == defaults || fresh(env)
      ensures DistinctNames(env[..]) && KeepsPositions(old(defaults[..]), env[..])
      ensures Meaning(env[..]) == Meaning(old(defaults[..])) + Meaning(old(env[..])) + Meaning(stateStore[..])
    {
      ghost var generated, template := defaults[..], env[..];
      var mergedVars := Fold(defaults, env);
      MergeRefinesOverride(generated, template);
      ghost var merged := mergedVars[..];
      env := mergedVars;
      env := Fold(env, stateStore);
      MergeRefinesOverride(merged, stateStore[..]);
    }

    /** Sorts the environment in place. */
    method SortEnv()
      modifies env
      ensures exists order :: TopologicalSort.Sorted(old(env[..]), order, env[..])
    {
      TopologicalSort.Sort(env);
    }
  }

  // ---- Merge, then sort ----

  lemma {:induction false} OnceEach(list: seq<EnvVar>, v: EnvVar)
    requires DistinctNames(list)
    ensures multiset(list)[v] == if v in list then 1 else 0
  {
    if list != [] {
      var last := |list| - 1;
      OnceEach(list[..last], v);
      assert list == list[..last] + [list[last]];
    }
  }

  lemma SameMeaningSameMultiset(e: seq<EnvVar>, f: seq<EnvVar>)
    requires DistinctNames(e) && DistinctNames(f) && Meaning(e) == Meaning(f)
    ensures multiset(e) == multiset(f)
  {
    forall v ensures multiset(e)[v] == multiset(f)[v] {
      OnceEach(e, v);
      OnceEach(f, v);
      if v in e { EntryCarriesOver(e, f, v); }
      if v in f { EntryCarriesOver(f, e, v); }
    }
  }

  lemma EntryCarriesOver(e: seq<EnvVar>, f: seq<EnvVar>, v: EnvVar)
    requires DistinctNames(e) && Meaning(e) == Meaning(f) && v in e
    ensures v in f
  {
    var i :| 0 <= i < |e| && e[i] == v;
    DistinctMeaning(e, i);
    MeaningIsEntry(f, v.name);
  }

  /** The list that ends up in the pod depends on what the names mean and on nothing else: where the
      variables came from and in which order they were merged leaves no trace. */
  lemma EnvDependsOnMeaningOnly(e: seq<EnvVar>, order1: seq<nat>, out1: seq<EnvVar>,
                                f: seq<EnvVar>, order2: seq<nat>, out2: seq<EnvVar>)
    requires DistinctNames(e) && DistinctNames(f) && Meaning(e) == Meaning(f) && Acyclic(e)
    requires TopologicalSort.Sorted(e, order1, out1) && TopologicalSort.Sorted(f, order2, out2)
    ensures out1 == out2
  {
    SameMeaningSameMultiset(e, f);
    SameVariablesSameOrder(e, order1, f, order2);
  }
}
