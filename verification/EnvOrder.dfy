/** The dependency relation between environment variables, and what it means to order them by it. */
module EnvOrder {
  import opened Lex
  import opened Graphs

  datatype EnvVar = EnvVar(name: string, value: string, valueFrom: string)

  // ---- `DependsOn`: an unescaped reference $(NAME) ----

  predicate OccursAt(s: string, t: string, i: int) {
    0 <= i <= |s| - |t| && s[i..i + |t|] == t
  }

  /** The first occurrence of `t` in `s` from position `i`, as `strings.Index` finds it. */
  function IndexFrom(s: string, t: string, i: nat): (r: Option<nat>)
    requires i <= |s| + 1
    ensures r.Some? ==> r.value >= i && OccursAt(s, t, r.value) && forall k :: i <= k < r.value ==> !OccursAt(s, t, k)
    ensures r.None? ==> forall k :: i <= k ==> !OccursAt(s, t, k)
    decreases |s| + 1 - i
  {
    if i > |s| then None
    else if OccursAt(s, t, i) then Some(i)
    else IndexFrom(s, t, i + 1)
  }

  /** How many '$' stand in a row right before position `i`. */
  function DollarsBefore(s: string, i: nat): nat
    requires i <= |s|
  {
    if i > 0 && s[i - 1] == '$' then DollarsBefore(s, i - 1) + 1 else 0
  }

  function Reference(name: string): string {
    "$(" + name + ")"
  }

  predicate DependsOn(a: EnvVar, b: EnvVar) {
    var r := IndexFrom(a.value, Reference(b.name), 0);
    r.Some? && DollarsBefore(a.value, r.value) % 2 == 0
  }

  /** The operator's scan: find the first occurrence, then count the '$' before it. */
  method ScanDependsOn(a: EnvVar, b: EnvVar) returns (r: bool)
    ensures r == DependsOn(a, b)
  {
    var found := IndexFrom(a.value, Reference(b.name), 0);
    if found.None? {
      return false;
    }
    var count, i := 0, found.value as int - 1;
    while i >= 0 && a.value[i] == '$'
      invariant -1 <= i < found.value && count >= 0
      invariant count + DollarsBefore(a.value, i + 1) == DollarsBefore(a.value, found.value)
    {
      count := count + 1;
      i := i - 1;
    }
    r := count % 2 == 0;
  }

  /** Some occurrence is preceded by an even run of '$', that is, it is not escaped. */
  ghost predicate RefersTo(a: EnvVar, b: EnvVar) {
    exists i :: UnescapedAt(a.value, Reference(b.name), i)
  }

  ghost predicate UnescapedAt(s: string, t: string, i: int) {
    OccursAt(s, t, i) && DollarsBefore(s, i) % 2 == 0
  }

  /** The scan looks at the first occurrence only, so it never invents a dependency and misses one
      exactly when an escaped occurrence comes before an unescaped one. */
  lemma ScanMissesExactly(a: EnvVar, b: EnvVar)
    ensures DependsOn(a, b) ==> RefersTo(a, b)
    ensures RefersTo(a, b) && !DependsOn(a, b) <==> HidesReference(a, b)
  {
    var s, t := a.value, Reference(b.name);
    var r := IndexFrom(s, t, 0);
    if DependsOn(a, b) { assert UnescapedAt(s, t, r.value); }
    if RefersTo(a, b) && !DependsOn(a, b) {
      var j :| UnescapedAt(s, t, j);
      assert EscapedAt(s, t, r.value) && FirstAt(s, t, r.value) && r.value < j;
    }
  }

  /** The first occurrence is escaped and a later one is not. */
  ghost predicate HidesReference(a: EnvVar, b: EnvVar) {
    exists i, j :: i < j && FirstAt(a.value, Reference(b.name), i) && EscapedAt(a.value, Reference(b.name), i)
                   && UnescapedAt(a.value, Reference(b.name), j)
  }

  ghost predicate EscapedAt(s: string, t: string, i: int) {
    OccursAt(s, t, i) && DollarsBefore(s, i) % 2 == 1
  }

  ghost predicate FirstAt(s: string, t: string, i: int) {
    OccursAt(s, t, i) && forall k :: 0 <= k < i ==> !OccursAt(s, t, k)
  }

  /** Here the second occurrence is a reference and is missed. */
  lemma EscapedFirstHidesReference()
    ensures HidesReference(EnvVar("A", "$$(B)$(B)", ""), EnvVar("B", "", ""))
  {
    var s, t := "$$(B)$(B)", Reference("B");
    assert t == "$(B)";
    assert OccursAt(s, t, 1) by { assert s[1..5] == t; }
    assert OccursAt(s, t, 5) by { assert s[5..9] == t; }
    assert !OccursAt(s, t, 0) by { assert s[0..4][1] != t[1]; }
    assert DollarsBefore(s, 1) == 1 && DollarsBefore(s, 5) == 0;
    assert FirstAt(s, t, 1) && EscapedAt(s, t, 1) && UnescapedAt(s, t, 5);
  }

  // ---- The same, character by character ----

  /** At position `i` stand '$', '(', the name and ')'. */
  ghost predicate SpelledAt(s: string, name: string, i: int) {
    && 0 <= i && i + |name| + 3 <= |s|
    && s[i] == '$' && s[i + 1] == '(' && s[i + 2 + |name|] == ')'
    && forall k :: 0 <= k < |name| ==> s[i + 2 + k] == name[k]
  }

  ghost predicate FirstSpelledAt(s: string, name: string, i: int) {
    SpelledAt(s, name, i) && forall k :: 0 <= k < i ==> !SpelledAt(s, name, k)
  }

  /** From `j` up to `i` there are only '$', and no more of them before. */
  ghost predicate RunOfDollars(s: string, j: int, i: int) {
    0 <= j <= i <= |s| && (forall k :: j <= k < i ==> s[k] == '$') && (j > 0 ==> s[j - 1] != '$')
  }

  /** The run of '$' right before position `i` is of even length. */
  ghost predicate EvenRunBefore(s: string, i: int) {
    exists j :: RunOfDollars(s, j, i) && (i - j) % 2 == 0
  }

  lemma SpelledIsOccurrence(s: string, name: string, i: int)
    ensures OccursAt(s, Reference(name), i) <==> SpelledAt(s, name, i)
  {
    var t := Reference(name);
    assert t[0] == '$' && t[1] == '(' && t[2 + |name|] == ')' && forall k :: 0 <= k < |name| ==> t[2 + k] == name[k];
    if OccursAt(s, t, i) {
      assert t[0] == s[i..i + |t|][0] && t[1] == s[i..i + |t|][1] && t[2 + |name|] == s[i..i + |t|][2 + |name|];
      forall k | 0 <= k < |name| ensures s[i + 2 + k] == name[k] { assert s[i..i + |t|][2 + k] == t[2 + k]; }
    }
    if SpelledAt(s, name, i) {
      forall k | 0 <= k < |t| ensures s[i + k] == t[k] {
        if 2 <= k < 2 + |name| { assert s[i + 2 + (k - 2)] == name[k - 2]; }
      }
      assert s[i..i + |t|] == t;
    }
  }

  lemma {:induction false} RunLength(s: string, j: int, i: nat)
    requires RunOfDollars(s, j, i)
    ensures DollarsBefore(s, i) == i - j
  {
    if j < i { RunLength(s, j, i - 1); }
  }

  lemma {:induction false} RunBegins(s: string, i: nat) returns (j: int)
    requires i <= |s|
    ensures RunOfDollars(s, j, i)
  {
    j := i;
    while j > 0 && s[j - 1] == '$'
      invariant 0 <= j <= i && forall k :: j <= k < i ==> s[k] == '$'
    {
      j := j - 1;
    }
  }

  lemma EvenRunExactly(s: string, i: nat)
    requires i <= |s|
    ensures DollarsBefore(s, i) % 2 == 0 <==> EvenRunBefore(s, i)
  {
    var j := RunBegins(s, i);
    RunLength(s, j, i);
    if k :| RunOfDollars(s, k, i) && (i - k) % 2 == 0 { RunLength(s, k, i); }
  }

  /** `a` depends on `b` exactly if the first `$(name of b)` in the value of `a` follows an even run of '$', and
      refers to it exactly if some does. */
  lemma DependsOnExactly(a: EnvVar, b: EnvVar)
    ensures DependsOn(a, b) <==> exists i :: FirstSpelledAt(a.value, b.name, i) && EvenRunBefore(a.value, i)
    ensures RefersTo(a, b) <==> exists i :: SpelledAt(a.value, b.name, i) && EvenRunBefore(a.value, i)
  {
    var s, t := a.value, Reference(b.name);
    forall i ensures OccursAt(s, t, i) <==> SpelledAt(s, b.name, i) { SpelledIsOccurrence(s, b.name, i); }
    forall i: nat | i <= |s| ensures DollarsBefore(s, i) % 2 == 0 <==> EvenRunBefore(s, i) { EvenRunExactly(s, i); }
    var r := IndexFrom(s, t, 0);
    if r.Some? { assert FirstSpelledAt(s, b.name, r.value); }
    if i :| SpelledAt(s, b.name, i) && EvenRunBefore(s, i) { assert UnescapedAt(s, t, i); }
  }

  /** A value that is one reference, to a name without '$' and ')'. */
  ghost predicate IsReference(s: string, name: string) {
    |s| == |name| + 3 && SpelledAt(s, name, 0) && '$' !in name && ')' !in name
  }

  lemma ReferenceSpelledOnce(s: string, name: string, other: string, i: int)
    requires IsReference(s, name) && SpelledAt(s, other, i)
    ensures i == 0 && other == name
  {
    forall k | 2 <= k < 2 + |name| ensures s[k] != '$' && s[k] != ')' { assert s[2 + (k - 2)] == name[k - 2]; }
  }

  /** A value that is one reference depends on the variable of that name and on no other. */
  lemma ReferenceDependsOnName(a: EnvVar, b: EnvVar, name: string)
    requires IsReference(a.value, name)
    ensures DependsOn(a, b) <==> b.name == name
    ensures RefersTo(a, b) <==> b.name == name
    ensures !HidesReference(a, b)
  {
    DependsOnExactly(a, b);
    if b.name == name {
      assert FirstSpelledAt(a.value, name, 0);
      assert RunOfDollars(a.value, 0, 0);
    }
    forall i | SpelledAt(a.value, b.name, i) ensures i == 0 && b.name == name {
      ReferenceSpelledOnce(a.value, name, b.name, i);
    }
    if i, j :| i < j && FirstAt(a.value, Reference(b.name), i) && UnescapedAt(a.value, Reference(b.name), j) {
      SpelledIsOccurrence(a.value, b.name, j);
    }
  }

  /** A value without '$' depends on nothing. */
  lemma PlainDependsOnNothing(a: EnvVar, b: EnvVar)
    requires '$' !in a.value
    ensures !DependsOn(a, b) && !RefersTo(a, b)
  {
    DependsOnExactly(a, b);
  }

  // ---- The graph that the sort builds ----

  /** Variable i waits for variable j. Of two variables that depend on each other only the earlier
      one waits. */
  predicate Edge(e: seq<EnvVar>, i: nat, j: nat)
    requires i < |e| && j < |e|
  {
    DependsOn(e[i], e[j]) && (j < i ==> !DependsOn(e[j], e[i]))
  }

  ghost function Graph(e: seq<EnvVar>): (r: Edges)
    ensures forall i: nat, j: nat :: (i, j) in r <==> i < |e| && j < |e| && Edge(e, i, j)
  {
    set i: nat, j: nat | i < |e| && j < |e| && Edge(e, i, j) :: (i, j)
  }

  /** An order that always takes a ready variable of smallest name and stops when none is ready. */
  ghost predicate Greedy(e: seq<EnvVar>, order: seq<nat>) {
    && Exhausts(|e|, Graph(e), order)
    && forall k :: 0 <= k < |order| ==> SmallestReady(e, Graph(e), order[..k], order[k])
  }

  ghost predicate SmallestReady(e: seq<EnvVar>, edges: Edges, done: seq<nat>, v: nat) {
    && Ready(|e|, edges, done, v)
    && forall u: nat :: Ready(|e|, edges, done, u) ==> !Less(e[u].name, e[v].name)
  }

  /** The write-back: positions past the end of the order keep what they had. */
  function Rearranged(e: seq<EnvVar>, order: seq<nat>): (r: seq<EnvVar>)
    requires |order| <= |e| && forall i :: 0 <= i < |order| ==> order[i] < |e|
    ensures |r| == |e|
  {
    seq(|e|, i requires 0 <= i < |e| => if i < |order| then e[order[i]] else e[i])
  }
}
