/** Which open request a side effect belongs to. */
module Attribution {
  import opened Effects

  /** An open request; closedAt is 0 until the request is being finished. */
  datatype Scope = Scope(startedAt: int, closedAt: int, effects: seq<Effect>)

  predicate Eligible(scope: Scope, timestamp: int) {
    scope.startedAt <= timestamp && (scope.closedAt == 0 || timestamp <= scope.closedAt)
  }

  /** The lexicographic order on (startedAt, scope ID). */
  predicate Precedes(startedAt: int, id: nat, startedAt': int, id': nat) {
    startedAt < startedAt' || (startedAt == startedAt' && id < id')
  }

  ghost predicate IsBest(scopes: map<nat, Scope>, timestamp: int, id: nat) {
    && id in scopes && Eligible(scopes[id], timestamp)
    && forall x :: x in scopes && x != id && Eligible(scopes[x], timestamp) ==>
         Precedes(scopes[x].startedAt, x, scopes[id].startedAt, id)
  }

  ghost predicate SomeEligible(scopes: map<nat, Scope>, timestamp: int) {
    exists x :: x in scopes && Eligible(scopes[x], timestamp)
  }

  lemma {:induction false} BestExists(scopes: map<nat, Scope>, timestamp: int)
    requires SomeEligible(scopes, timestamp)
    ensures exists id :: IsBest(scopes, timestamp, id)
    decreases |scopes|
  {
    var x :| x in scopes && Eligible(scopes[x], timestamp);
    var rest := scopes - {x};
    assert rest.Keys == scopes.Keys - {x};
    assert |rest| == |rest.Keys| && |scopes| == |scopes.Keys|;
    if SomeEligible(rest, timestamp) {
      BestExists(rest, timestamp);
      var y :| IsBest(rest, timestamp, y);
      var best := if Precedes(scopes[y].startedAt, y, scopes[x].startedAt, x) then x else y;
      forall z | z in scopes && z != best && Eligible(scopes[z], timestamp)
        ensures Precedes(scopes[z].startedAt, z, scopes[best].startedAt, best)
      {
        if z != x { assert z in rest; }
      }
      assert IsBest(scopes, timestamp, best);
    } else {
      assert forall y :: y in scopes && y != x ==> y in rest;
      assert IsBest(scopes, timestamp, x);
    }
  }

  lemma BestIsUnique(scopes: map<nat, Scope>, timestamp: int, id: nat, id': nat)
    requires IsBest(scopes, timestamp, id) && IsBest(scopes, timestamp, id')
    ensures id == id'
  {
  }

  ghost function Best(scopes: map<nat, Scope>, timestamp: int): (r: Option<nat>)
    ensures r.None? <==> !SomeEligible(scopes, timestamp)
    ensures r.Some? ==> IsBest(scopes, timestamp, r.value)
  {
    if SomeEligible(scopes, timestamp) then
      BestExists(scopes, timestamp);
      var id :| IsBest(scopes, timestamp, id);
      Some(id)
    else None
  }

  ghost function Assign(scopes: map<nat, Scope>, e: Effect): map<nat, Scope> {
    match Best(scopes, e.timestamp)
    case None => scopes
    case Some(id) => scopes[id := scopes[id].(effects := scopes[id].effects + [e])]
  }

  ghost function AssignAll(scopes: map<nat, Scope>, es: seq<Effect>): map<nat, Scope> {
    if es == [] then scopes else AssignAll(Assign(scopes, es[0]), es[1..])
  }

  /** The chosen scope is one that may have the effect, and of those the one started last; of
      several started at once it is the one with the greatest ID. */
  lemma ChosenStartedLast(scopes: map<nat, Scope>, timestamp: int, x: nat)
    requires x in scopes && scopes[x].startedAt <= timestamp
    requires scopes[x].closedAt == 0 || timestamp <= scopes[x].closedAt
    ensures Best(scopes, timestamp).Some?
    ensures var id := Best(scopes, timestamp).value;
      && id in scopes && scopes[id].startedAt <= timestamp
      && (scopes[id].closedAt == 0 || timestamp <= scopes[id].closedAt)
      && (scopes[x].startedAt < scopes[id].startedAt || (scopes[x].startedAt == scopes[id].startedAt && x <= id))
  {
    assert Eligible(scopes[x], timestamp);
  }

  /** Looks the scopes over in whatever order the map yields them: of the scopes started by then
      and not closed before, the result is the one started last, and of several started at once
      the one with the greatest ID. */
  method FindScopeForEffect(scopes: map<nat, Scope>, timestamp: int) returns (r: Option<nat>)
    ensures r == Best(scopes, timestamp)
    ensures r.Some? ==>
      && r.value in scopes && scopes[r.value].startedAt <= timestamp
      && (scopes[r.value].closedAt == 0 || timestamp <= scopes[r.value].closedAt)
    ensures forall x ::
      (&& x in scopes && scopes[x].startedAt <= timestamp
       && (scopes[x].closedAt == 0 || timestamp <= scopes[x].closedAt)) ==>
        (&& r.Some?
         && (scopes[x].startedAt < scopes[r.value].startedAt
             || (scopes[x].startedAt == scopes[r.value].startedAt && x <= r.value)))
  {
    r := None;
    var todo := scopes.Keys;
    while todo != {}
      invariant todo <= scopes.Keys
      invariant r.Some? ==> r.value in scopes && Eligible(scopes[r.value], timestamp)
      invariant forall x :: x in scopes && x !in todo && Eligible(scopes[x], timestamp) ==>
        r.Some? && (x == r.value || Precedes(scopes[x].startedAt, x, scopes[r.value].startedAt, r.value))
      decreases |todo|
    {
      var id :| id in todo;
      todo := todo - {id};
      var scope := scopes[id];
      if scope.startedAt > timestamp {
        continue;
      }
      if scope.closedAt != 0 && timestamp > scope.closedAt {
        continue;
      }
      if r.None? || scope.startedAt > scopes[r.value].startedAt
         || (scope.startedAt == scopes[r.value].startedAt && id > r.value) {
        r := Some(id);
      }
    }
    if r.Some? {
      assert IsBest(scopes, timestamp, r.value);
      BestIsUnique(scopes, timestamp, r.value, Best(scopes, timestamp).value);
    }
  }
}
