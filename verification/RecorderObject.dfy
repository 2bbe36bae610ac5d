/** The recorder's fields and the methods that update them while holding the mutex. */
module RecorderObject {
  import opened Effects
  import opened Attribution

  datatype StoredRecord = StoredRecord(recordedAt: int, effects: seq<Effect>)

  datatype FinishResult = Stored(record: StoredRecord) | NotFound | NotStored(record: StoredRecord)

  // ----- what a sequence of attributions does -----

  ghost predicate SameBounds(a: map<nat, Scope>, b: map<nat, Scope>) {
    && a.Keys == b.Keys
    && forall id :: id in a ==> a[id].startedAt == b[id].startedAt && a[id].closedAt == b[id].closedAt
  }

  lemma BestIgnoresEffects(a: map<nat, Scope>, b: map<nat, Scope>, timestamp: int)
    requires SameBounds(a, b)
    ensures Best(a, timestamp) == Best(b, timestamp)
  {
    assert forall id :: id in a ==> (Eligible(a[id], timestamp) <==> Eligible(b[id], timestamp));
    if Best(a, timestamp).Some? {
      var id := Best(a, timestamp).value;
      assert id in b && Eligible(b[id], timestamp);
      assert IsBest(b, timestamp, id);
      BestIsUnique(b, timestamp, id, Best(b, timestamp).value);
    }
  }

  /** The effects of es that the rule gives to scope id, in order. */
  ghost function ClaimedBy(scopes: map<nat, Scope>, es: seq<Effect>, id: nat): seq<Effect> {
    if es == [] then [] else
      (if Best(scopes, es[0].timestamp) == Some(id) then [es[0]] else []) + ClaimedBy(scopes, es[1..], id)
  }

  lemma {:induction false} ClaimedByIgnoresEffects(a: map<nat, Scope>, b: map<nat, Scope>, es: seq<Effect>, id: nat)
    requires SameBounds(a, b)
    ensures ClaimedBy(a, es, id) == ClaimedBy(b, es, id)
  {
    if es != [] {
      BestIgnoresEffects(a, b, es[0].timestamp);
      ClaimedByIgnoresEffects(a, b, es[1..], id);
    }
  }

  lemma AssignKeepsBounds(scopes: map<nat, Scope>, e: Effect)
    ensures SameBounds(Assign(scopes, e), scopes)
  {
  }

  /** Attributing a queue changes no bounds and appends to each scope, in queue order, exactly
      the effects that the rule gives it under the bounds at the start. */
  lemma {:induction false} AssignAllAppends(scopes: map<nat, Scope>, es: seq<Effect>, id: nat)
    requires id in scopes
    ensures SameBounds(AssignAll(scopes, es), scopes)
    ensures AssignAll(scopes, es)[id].effects == scopes[id].effects + ClaimedBy(scopes, es, id)
    decreases |es|
  {
    if es != [] {
      var next := Assign(scopes, es[0]);
      AssignKeepsBounds(scopes, es[0]);
      AssignAllAppends(next, es[1..], id);
      ClaimedByIgnoresEffects(next, scopes, es[1..], id);
      assert next[id].effects == scopes[id].effects + if Best(scopes, es[0].timestamp) == Some(id) then [es[0]] else [];
    }
  }

  class Recorder {
    var activeScopes: map<nat, Scope>
    var scopeID: nat
    var sideEffectCh: seq<Effect>
    var stored: seq<StoredRecord>
    var count: nat

    /** Scope IDs in use have been drawn; the counter counts the stored records. */
    ghost predicate Valid()
      reads this
    {
      (forall id :: id in activeScopes ==> id <= scopeID) && count <= |stored|
    }

    constructor ()
      ensures Valid()
      ensures activeScopes == map[] && scopeID == 0 && sideEffectCh == [] && stored == [] && count == 0
    {
      activeScopes, scopeID, sideEffectCh, stored, count := map[], 0, [], [], 0;
    }

    method BeginRequestScope(startedAt: int) returns (id: nat)
      requires Valid()
      modifies this`scopeID, this`activeScopes
      ensures Valid()
      ensures id !in old(activeScopes) && scopeID == id == old(scopeID) + 1
      ensures activeScopes == old(activeScopes)[id := Scope(startedAt, 0, [])]
    {
      scopeID := scopeID + 1;
      id := scopeID;
      activeScopes := activeScopes[id := Scope(startedAt, 0, [])];
    }

    method AssignSideEffect(effect: Effect)
      requires Valid()
      modifies this`activeScopes
      ensures Valid()
      ensures activeScopes == Assign(old(activeScopes), effect)
    {
      var chosen := FindScopeForEffect(activeScopes, effect.timestamp);
      if chosen.Some? {
        var scope := activeScopes[chosen.value];
        activeScopes := activeScopes[chosen.value := scope.(effects := scope.effects + [effect])];
      }
    }

    method DrainSideEffects()
      requires Valid()
      modifies this`activeScopes, this`sideEffectCh
      ensures Valid() && sideEffectCh == []
      ensures activeScopes == AssignAll(old(activeScopes), old(sideEffectCh))
    {
      while sideEffectCh != []
        invariant Valid()
        invariant AssignAll(activeScopes, sideEffectCh) == AssignAll(old(activeScopes), old(sideEffectCh))
        decreases |sideEffectCh|
      {
        var effect := sideEffectCh[0];
        sideEffectCh := sideEffectCh[1..];
        AssignSideEffect(effect);
      }
    }

    /** Finishing a scope with no other call in between: the scope is closed, everything queued
        is attributed, and the scope's effects go into the one record. The record is handed to
        the store, which may fail; the scope is gone either way. A record without a time is given the current one. */
    method FinishRequestScope(id: nat, recordedAt: int, now: int, storeOk: bool) returns (r: FinishResult)
      requires Valid()
      modifies this`activeScopes, this`sideEffectCh, this`stored, this`count
      ensures Valid()
      ensures id !in old(activeScopes) ==> r == NotFound && activeScopes == old(activeScopes)
      ensures id !in old(activeScopes) ==> sideEffectCh == old(sideEffectCh) && stored == old(stored)
      ensures id in old(activeScopes) ==>
        var closedAt := if recordedAt == 0 then now else recordedAt;
        var closed := old(activeScopes)[id := old(activeScopes)[id].(closedAt := closedAt)];
        var record := StoredRecord(closedAt, old(activeScopes)[id].effects + ClaimedBy(closed, old(sideEffectCh), id));
        && sideEffectCh == []
        && activeScopes == AssignAll(closed, old(sideEffectCh)) - {id}
        && r == (if storeOk then Stored(record) else NotStored(record))
        && stored == old(stored) + (if storeOk then [record] else [])
        && count == old(count) + (if storeOk then 1 else 0)
    {
      var closedAt := recordedAt;
      if closedAt == 0 {
        closedAt := now;
      }
      if id !in activeScopes {
        return NotFound;
      }
      activeScopes := activeScopes[id := activeScopes[id].(closedAt := closedAt)];
      ghost var closed := activeScopes;
      AssignAllAppends(closed, sideEffectCh, id);
      DrainSideEffects();
      var record := StoredRecord(closedAt, activeScopes[id].effects);
      activeScopes := activeScopes - {id};
      if storeOk {
        stored := stored + [record];
        count := count + 1;
        r := Stored(record);
      } else {
        r := NotStored(record);
      }
    }
  }
}
