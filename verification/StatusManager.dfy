/** The RisingWave manager: an immutable snapshot, a mutable copy of its status, and the
    compare-and-swap that writes the copy back. */
module StatusManager {
  import opened Lex
  import opened ScaleViewLocks
  import opened LockGuard

  datatype ConditionType = Running | Initializing | Upgrading | Failing | Unclear

  datatype Verdict = Yes | No | Unsure

  /** `since` is the last transition time, in which 0 is the zero time that says nothing. */
  datatype Condition = Condition(kind: ConditionType, verdict: Verdict, since: nat)

  datatype Status = Status(observedGeneration: int, conditions: seq<Condition>, locks: seq<Lock>)

  /** The stored object: a spec that has a generation, and the status. */
  datatype Stored = Stored(name: string, generation: int, components: Components, status: Status)

  // ---- Condition lists ----

  function IndexOfKind(conds: seq<Condition>, kind: ConditionType): (r: nat)
    ensures r <= |conds| && (r < |conds| ==> conds[r].kind == kind)
    ensures forall k :: 0 <= k < r ==> conds[k].kind != kind
  {
    if conds == [] || conds[0].kind == kind then 0 else IndexOfKind(conds[1..], kind) + 1
  }

  /** The first condition of the type. */
  ghost predicate FirstOfKind(conds: seq<Condition>, kind: ConditionType, i: nat) {
    i < |conds| && conds[i].kind == kind && forall k :: 0 <= k < i ==> conds[k].kind != kind
  }

  function Find(conds: seq<Condition>, kind: ConditionType): Option<Condition> {
    var i := IndexOfKind(conds, kind);
    if i < |conds| then Some(conds[i]) else None
  }

  function Get(conds: seq<Condition>, kind: ConditionType): Option<Verdict> {
    match Find(conds, kind) case None => None case Some(c) => Some(c.verdict)
  }

  function Since(conds: seq<Condition>, kind: ConditionType): nat {
    match Find(conds, kind) case None => 0 case Some(c) => c.since
  }

  /** A condition that says something else than the snapshot gets the time of the call. One that does not
      goes in as it was passed. */
  function Stamped(seen: seq<Condition>, c: Condition, clock: nat): Condition {
    if Get(seen, c.kind) == Some(c.verdict) then c else c.(since := clock)
  }

  function WithCondition(conds: seq<Condition>, c: Condition): seq<Condition> {
    var i := IndexOfKind(conds, c.kind);
    if i < |conds| then conds[i := c] else conds + [c]
  }

  function WithoutCondition(conds: seq<Condition>, kind: ConditionType): seq<Condition> {
    var i := IndexOfKind(conds, kind);
    if i < |conds| then conds[..i] + conds[i + 1..] else conds
  }

  ghost predicate Unique(conds: seq<Condition>) {
    forall i, j :: 0 <= i < j < |conds| ==> conds[i].kind != conds[j].kind
  }

  lemma FindAt(conds: seq<Condition>, i: nat)
    requires Unique(conds) && i < |conds|
    ensures Find(conds, conds[i].kind) == Some(conds[i])
  {
    var k := IndexOfKind(conds, conds[i].kind);
    assert k == i;
  }

  /** An update replaces the condition of one type and no other. */
  lemma UpdateActsAsMap(conds: seq<Condition>, c: Condition, kind: ConditionType)
    requires Unique(conds)
    ensures Unique(WithCondition(conds, c))
    ensures Find(WithCondition(conds, c), kind) == if kind == c.kind then Some(c) else Find(conds, kind)
    ensures |conds| <= |WithCondition(conds, c)| <= |conds| + 1
    ensures forall i :: 0 <= i < |conds| ==> WithCondition(conds, c)[i].kind == conds[i].kind
  {
    var next, i := WithCondition(conds, c), IndexOfKind(conds, c.kind);
    var k := IndexOfKind(conds, kind);
    assert Unique(next);
    if kind == c.kind {
      FindAt(next, i);
    } else if k < |conds| {
      assert next[k] == conds[k];
      FindAt(next, k);
    }
  }

  /** A removal forgets one type and keeps the rest. */
  lemma RemoveActsAsMap(conds: seq<Condition>, gone: ConditionType, kind: ConditionType)
    requires Unique(conds)
    ensures Unique(WithoutCondition(conds, gone))
    ensures Find(WithoutCondition(conds, gone), kind) == if kind == gone then None else Find(conds, kind)
  {
    var next, i := WithoutCondition(conds, gone), IndexOfKind(conds, gone);
    var k := IndexOfKind(conds, kind);
    assert i < |conds| ==> forall j :: 0 <= j < |next| ==> next[j] == conds[if j < i then j else j + 1];
    assert Unique(next);
    if i < |conds| && kind != gone && k < |conds| {
      assert next[if k < i then k else k - 1] == conds[k];
      FindAt(next, if k < i then k else k - 1);
    } else if i < |conds| {
      assert forall j :: 0 <= j < |next| ==> next[j].kind != kind;
    }
  }

  // ---- The manager ----

  /** A status that did not change is not written; a changed one conflicts with any later version. */
  function Commit(hist: seq<Stored>, snap: nat, now: Status): seq<Stored>
    requires snap < |hist|
  {
    if now != hist[snap].status && snap == |hist| - 1 then hist + [hist[snap].(status := now)] else hist
  }

  class StatusServer {
    var hist: seq<Stored>

    constructor (first: Stored)
      ensures hist == [first]
    {
      hist := [first];
    }
  }

  class RisingWaveManager {
    const risingwave: Stored
    const snap: nat
    var mutableStatus: Status

    constructor (server: StatusServer, snap: nat)
      requires snap < |server.hist|
      ensures risingwave == server.hist[snap] && this.snap == snap && mutableStatus == risingwave.status
    {
      this.risingwave, this.snap, mutableStatus := server.hist[snap], snap, server.hist[snap].status;
    }

    /** Reads the snapshot, never the copy. */
    method GetCondition(kind: ConditionType) returns (r: Option<Condition>)
      ensures r == Find(risingwave.status.conditions, kind)
      ensures forall i: nat :: FirstOfKind(risingwave.status.conditions, kind, i) ==>
                r == Some(risingwave.status.conditions[i])
      ensures (forall c :: c in risingwave.status.conditions ==> c.kind != kind) ==> r == None
    {
      var conds := risingwave.status.conditions;
      for i := 0 to |conds|
        invariant forall k :: 0 <= k < i ==> conds[k].kind != kind
      {
        if conds[i].kind == kind { return Some(conds[i]); }
      }
      r := None;
    }

    method UpdateCondition(condition: Condition, clock: nat)
      modifies this
      ensures mutableStatus == old(mutableStatus).(conditions :=
                WithCondition(old(mutableStatus).conditions, Stamped(risingwave.status.conditions, condition, clock)))
      ensures forall i: nat :: FirstOfKind(old(mutableStatus).conditions, condition.kind, i) ==>
                mutableStatus.conditions ==
                old(mutableStatus).conditions[i := Stamped(risingwave.status.conditions, condition, clock)]
      ensures (forall c :: c in old(mutableStatus).conditions ==> c.kind != condition.kind) ==>
                mutableStatus.conditions ==
                old(mutableStatus).conditions + [Stamped(risingwave.status.conditions, condition, clock)]
    {
      var c := condition;
      var lastObservedCondition := GetCondition(c.kind);
      if lastObservedCondition.None? || lastObservedCondition.value.verdict != c.verdict {
        c := c.(since := clock);
      }
      var conds := mutableStatus.conditions;
      var i := 0;
      while i < |conds| && conds[i].kind != c.kind
        invariant i <= |conds| && forall k :: 0 <= k < i ==> conds[k].kind != c.kind
      {
        i := i + 1;
      }
      if i < |conds| {
        conds := conds[i := c];
      } else {
        conds := conds + [c];
      }
      mutableStatus := mutableStatus.(conditions := conds);
    }

    method RemoveCondition(kind: ConditionType)
      modifies this
      ensures mutableStatus == old(mutableStatus).(conditions := WithoutCondition(old(mutableStatus).conditions, kind))
      ensures forall i: nat :: FirstOfKind(old(mutableStatus).conditions, kind, i) ==>
                mutableStatus.conditions ==
                old(mutableStatus).conditions[..i] + old(mutableStatus).conditions[i + 1..]
      ensures (forall c :: c in old(mutableStatus).conditions ==> c.kind != kind) ==>
                mutableStatus == old(mutableStatus)
    {
      var conds := mutableStatus.conditions;
      for i := 0 to |conds|
        invariant mutableStatus == old(mutableStatus)
        invariant forall k :: 0 <= k < i ==> conds[k].kind != kind
      {
        if conds[i].kind == kind {
          mutableStatus := mutableStatus.(conditions := conds[..i] + conds[i + 1..]);
          return;
        }
      }
    }

    method SyncObservedGeneration()
      modifies this
      ensures mutableStatus == old(mutableStatus).(observedGeneration := risingwave.generation)
    {
      mutableStatus := mutableStatus.(observedGeneration := risingwave.generation);
    }

    method KeepLock(aliveScaleView: seq<Lock>)
      modifies this
      ensures mutableStatus == old(mutableStatus).(locks := aliveScaleView)
    {
      mutableStatus := mutableStatus.(locks := aliveScaleView);
    }

    method UpdateRemoteRisingWaveStatus(server: StatusServer) returns (conflict: bool)
      requires snap < |server.hist| && server.hist[snap] == risingwave
      modifies server
      ensures server.hist == Commit(old(server.hist), snap, mutableStatus)
      ensures conflict <==> mutableStatus != risingwave.status && snap != |old(server.hist)| - 1
      ensures server.hist == if conflict || mutableStatus == risingwave.status then old(server.hist)
                             else old(server.hist) + [risingwave.(status := mutableStatus)]
    {
      if mutableStatus == risingwave.status {
        return false;
      }
      conflict := snap != |server.hist| - 1;
      if !conflict {
        server.hist := server.hist + [risingwave.(status := mutableStatus)];
      }
    }
  }
}
