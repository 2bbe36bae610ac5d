/** The recorder: a channel of side effects, the collector goroutine that attributes them to
    open request scopes, and the calls that finish a scope, as interleaved atomic steps. Each
    critical section of the mutex is one step. */
module Recorder {
  import opened Effects
  import opened Attribution
  import opened Runs

  /** Why the collector is draining: for a flush handshake, or because it is stopping. */
  datatype Reason = ForFlush(ack: nat) | ForStop

  datatype Collector =
    | Idle
    | Holding(e: Effect)
    | Draining(why: Reason)
    | DrainHolding(e: Effect, why: Reason)
    | Ended

  /** Where a call of FinishRequestScope stands. */
  datatype FinisherPc =
    | Marking
    | Offering(ack: nat)
    | Awaiting(ack: nat)
    | Taking(flushed: bool)
    | Handed
    | Failed

  /** mark is the number of effects in the recorder when the flush handshake took place. */
  datatype Finisher = Finisher(scope: nat, recordedAt: int, pc: FinisherPc, mark: nat)

  datatype Outcome = Dropped | Assigned(scope: nat, startedAt: int, closedAt: int)

  datatype Handled = Handled(effect: Effect, outcome: Outcome)

  /** A record handed over: its effects, and when (in handled effects) its scope was open. */
  datatype Record = Record(
    scope: nat, finisher: nat, startedAt: int, recordedAt: int, effects: seq<Effect>,
    began: nat, until: nat, flushed: bool, mark: nat)

  datatype State = State(
    channel: seq<Effect>,
    collector: Collector,
    scopes: map<nat, Scope>,
    pending: map<nat, int>,   // scope IDs drawn but not yet entered, with their start times
    nextID: nat,
    stopped: bool,
    nextAck: nat,
    closedAcks: set<nat>,
    finishers: map<nat, Finisher>,
    // history
    delivered: seq<Effect>,          // everything put on the channel
    log: seq<Handled>,               // everything attributed or dropped, in order
    began: map<nat, nat>,            // length of log when a scope was entered
    closings: set<(nat, int)>,       // (scope ID, RecordedAt) of every finishing call
    records: seq<Record>)

  const CAPACITY := 1000

  ghost const INITIAL: State :=
    State([], Idle, map[], map[], 0, false, 0, {}, map[], [], [], map[], {}, [])

  datatype Step =
    | Arrive(e: Effect)
    | DrawID(startedAt: int)
    | Enter(id: nat)
    | Stop
    // collector
    | Receive
    | Attribute
    | DrainReceive
    | DrainAttribute
    | DrainEnd
    | Halt
    // FinishRequestScope
    | Finish(q: nat, scope: nat, recordedAt: int)
    | Mark(q: nat)
    | Handshake(q: nat)
    | SkipFlush(q: nat)
    | SeeFlushed(q: nat)
    | Take(q: nat)

  ghost predicate Enabled(s: State, step: Step) {
    match step
    case Arrive(_) => |s.channel| < CAPACITY
    case DrawID(_) => true
    case Enter(id) => id in s.pending
    case Stop => true
    case Receive => s.collector.Idle? && s.channel != []
    case Attribute => s.collector.Holding?
    case DrainReceive => s.collector.Draining? && s.channel != []
    case DrainAttribute => s.collector.DrainHolding?
    case DrainEnd => s.collector.Draining? && s.channel == []
    case Halt => s.collector.Idle? && s.stopped
    case Finish(q, _, recordedAt) => q !in s.finishers && recordedAt != 0
    case Mark(q) => q in s.finishers && s.finishers[q].pc.Marking?
    case Handshake(q) => q in s.finishers && s.finishers[q].pc.Offering? && s.collector.Idle?
    case SkipFlush(q) => q in s.finishers && s.finishers[q].pc.Offering? && s.stopped
    case SeeFlushed(q) => q in s.finishers && s.finishers[q].pc.Awaiting? && s.finishers[q].pc.ack in s.closedAcks
    case Take(q) => q in s.finishers && s.finishers[q].pc.Taking?
  }

  ghost function OutcomeOf(scopes: map<nat, Scope>, e: Effect): Outcome {
    match Best(scopes, e.timestamp)
    case None => Dropped
    case Some(id) => Assigned(id, scopes[id].startedAt, scopes[id].closedAt)
  }

  /** assignSideEffect: one critical section. */
  ghost function Handle(s: State, e: Effect): State {
    s.(scopes := Assign(s.scopes, e), log := s.log + [Handled(e, OutcomeOf(s.scopes, e))])
  }

  ghost function Goto(s: State, q: nat, pc: FinisherPc): State
    requires q in s.finishers
  {
    s.(finishers := s.finishers[q := s.finishers[q].(pc := pc)])
  }

  ghost function TakeRecord(s: State, q: nat): Record
    requires q in s.finishers && s.finishers[q].pc.Taking?
    requires s.finishers[q].scope in s.scopes
  {
    var f := s.finishers[q];
    var scope := s.scopes[f.scope];
    Record(f.scope, q, scope.startedAt, f.recordedAt, scope.effects,
      if f.scope in s.began then s.began[f.scope] else 0, |s.log|, f.pc.flushed, f.mark)
  }

  ghost function Do(s: State, step: Step): State
    requires Enabled(s, step)
  {
    match step
    case Arrive(e) => s.(channel := s.channel + [e], delivered := s.delivered + [e])
    case DrawID(startedAt) => s.(nextID := s.nextID + 1, pending := s.pending[s.nextID + 1 := startedAt])
    case Enter(id) =>
      s.(pending := s.pending - {id}, scopes := s.scopes[id := Scope(s.pending[id], 0, [])],
         began := s.began[id := |s.log|])
    case Stop => s.(stopped := true)
    case Receive => s.(channel := s.channel[1..], collector := Holding(s.channel[0]))
    case Attribute => Handle(s, s.collector.e).(collector := Idle)
    case DrainReceive => s.(channel := s.channel[1..], collector := DrainHolding(s.channel[0], s.collector.why))
    case DrainAttribute => Handle(s, s.collector.e).(collector := Draining(s.collector.why))
    case DrainEnd =>
      if s.collector.why.ForStop? then s.(collector := Ended)
      else s.(closedAcks := s.closedAcks + {s.collector.why.ack}, collector := Idle)
    case Halt => s.(collector := Draining(ForStop))
    case Finish(q, scope, recordedAt) =>
      s.(finishers := s.finishers[q := Finisher(scope, recordedAt, Marking, 0)],
         closings := s.closings + {(scope, recordedAt)})
    case Mark(q) =>
      var f := s.finishers[q];
      if f.scope in s.scopes then
        Goto(s, q, Offering(s.nextAck)).(
          scopes := s.scopes[f.scope := s.scopes[f.scope].(closedAt := f.recordedAt)],
          nextAck := s.nextAck + 1)
      else Goto(s, q, Failed)
    case Handshake(q) =>
      var f := s.finishers[q];
      s.(finishers := s.finishers[q := f.(pc := Awaiting(f.pc.ack), mark := |s.delivered|)],
         collector := Draining(ForFlush(f.pc.ack)))
    case SkipFlush(q) => Goto(s, q, Taking(false))
    case SeeFlushed(q) => Goto(s, q, Taking(true))
    case Take(q) =>
      var f := s.finishers[q];
      if f.scope in s.scopes then
        Goto(s, q, Handed).(scopes := s.scopes - {f.scope}, records := s.records + [TakeRecord(s, q)])
      else Goto(s, q, Failed)
  }

  // ----- conservation -----

  ghost function EffectsOf(log: seq<Handled>): (r: seq<Effect>)
    ensures |r| == |log|
  {
    seq(|log|, i requires 0 <= i < |log| => log[i].effect)
  }

  ghost function Held(c: Collector): seq<Effect> {
    if c.Holding? || c.DrainHolding? then [c.e] else []
  }

  /** The handled effects that went to one scope, in the order they were handled. */
  ghost function AssignedTo(log: seq<Handled>, id: nat): seq<Effect> {
    if log == [] then [] else
      var last := log[|log| - 1];
      AssignedTo(log[..|log| - 1], id) +
      if last.outcome.Assigned? && last.outcome.scope == id then [last.effect] else []
  }

  ghost predicate Flow(s: State) {
    s.delivered == EffectsOf(s.log) + Held(s.collector) + s.channel
  }

  /** Scope IDs are used once: pending, then open, then recorded. */
  ghost predicate Identities(s: State) {
    && (forall id :: id in s.pending ==> id <= s.nextID && id !in s.scopes && id !in s.began)
    && (forall id :: id in s.scopes ==> id in s.began)
    && (forall id :: id in s.began ==> id <= s.nextID && s.began[id] <= |s.log|)
    && (forall i :: 0 <= i < |s.records| ==> s.records[i].scope in s.began && s.records[i].scope !in s.scopes)
    && (forall i, j :: 0 <= i < j < |s.records| ==> s.records[i].scope != s.records[j].scope)
  }

  ghost function ScopesOf(records: seq<Record>): set<nat> {
    set i | 0 <= i < |records| :: records[i].scope
  }

  /** A scope that has begun is open or has been recorded. */
  ghost predicate Settled(s: State) {
    s.began.Keys == s.scopes.Keys + ScopesOf(s.records)
  }

  ghost predicate ScopeContents(s: State) {
    forall id :: id in s.scopes ==> s.scopes[id].effects == AssignedTo(s.log, id)
  }

  ghost predicate RecordContents(s: State) {
    forall i :: 0 <= i < |s.records| ==>
      var r := s.records[i];
      && r.began <= r.until <= |s.log|
      && r.effects == AssignedTo(s.log, r.scope) == AssignedTo(s.log[..r.until], r.scope)
  }

  /** Every attribution went to a scope that had begun, within the scope's time bounds. */
  ghost predicate Outcomes(s: State) {
    forall j :: 0 <= j < |s.log| && s.log[j].outcome.Assigned? ==>
      var h := s.log[j];
      && h.outcome.scope in s.began
      && h.outcome.startedAt <= h.effect.timestamp
      && (h.outcome.closedAt != 0 ==> h.effect.timestamp <= h.outcome.closedAt)
  }

  // ----- attribution -----

  /** What the attribution rule guarantees to a scope about an effect handled while it is open:
      unless the effect is too early or too late for it, the effect is not dropped, and if it
      went elsewhere it went to a scope with greater (startedAt, ID). */
  ghost predicate Claimed(h: Handled, id: nat, startedAt: int, closings: set<(nat, int)>) {
    startedAt <= h.effect.timestamp && (forall c :: c in closings && c.0 == id ==> h.effect.timestamp <= c.1) ==>
      && h.outcome.Assigned?
      && (h.outcome.scope == id || startedAt < h.outcome.startedAt
          || (startedAt == h.outcome.startedAt && id < h.outcome.scope))
  }

  ghost predicate Closings(s: State) {
    && (forall id :: id in s.scopes ==> s.scopes[id].closedAt == 0 || (id, s.scopes[id].closedAt) in s.closings)
    && (forall q :: q in s.finishers ==> (s.finishers[q].scope, s.finishers[q].recordedAt) in s.closings)
  }

  ghost predicate OpenClaims(s: State) {
    forall id, j :: id in s.scopes && id in s.began && s.began[id] <= j < |s.log| ==>
      Claimed(s.log[j], id, s.scopes[id].startedAt, s.closings)
  }

  ghost predicate RecordClaims(s: State) {
    forall i, j :: 0 <= i < |s.records| && s.records[i].began <= j < s.records[i].until && j < |s.log| ==>
      Claimed(s.log[j], s.records[i].scope, s.records[i].startedAt, s.closings)
  }

  // ----- the flush barrier -----

  ghost predicate AckOf(f: Finisher, ack: nat) {
    (f.pc.Offering? || f.pc.Awaiting?) && f.pc.ack == ack
  }

  ghost predicate Acks(s: State) {
    && (forall a :: a in s.closedAcks ==> a < s.nextAck)
    && (forall q :: q in s.finishers && (s.finishers[q].pc.Offering? || s.finishers[q].pc.Awaiting?) ==>
          s.finishers[q].pc.ack < s.nextAck)
    && (forall q :: q in s.finishers && s.finishers[q].pc.Offering? ==> s.finishers[q].pc.ack !in s.closedAcks)
    && (forall q, r, ack ::
          q in s.finishers && r in s.finishers && AckOf(s.finishers[q], ack) && AckOf(s.finishers[r], ack) ==>
            q == r)
  }

  ghost function DrainAck(c: Collector): Option<nat> {
    if (c.Draining? || c.DrainHolding?) && c.why.ForFlush? then Some(c.why.ack) else None
  }

  /** Once the flush that f waits for has been acknowledged, all f counted has been handled. */
  ghost predicate Flushing(s: State, f: Finisher) {
    && f.mark <= |s.delivered|
    && (f.pc.Offering? ==> DrainAck(s.collector) != Some(f.pc.ack))
    && (f.pc.Awaiting? && f.pc.ack in s.closedAcks ==> f.mark <= |s.log|)
    && (f.pc.Taking? && f.pc.flushed ==> f.mark <= |s.log|)
    && (f.pc.Taking? && !f.pc.flushed ==> s.stopped)
  }

  ghost predicate Barrier(s: State) {
    && (DrainAck(s.collector).Some? ==> DrainAck(s.collector).value < s.nextAck)
    && forall q :: q in s.finishers ==> Flushing(s, s.finishers[q])
  }

  ghost predicate RecordBarrier(s: State) {
    forall i :: 0 <= i < |s.records| ==>
      if s.records[i].flushed then s.records[i].mark <= s.records[i].until else s.stopped
  }

  ghost predicate Inv(s: State) {
    && Flow(s) && Identities(s) && Settled(s) && ScopeContents(s) && RecordContents(s) && Outcomes(s)
    && Closings(s) && OpenClaims(s) && RecordClaims(s) && Acks(s) && Barrier(s) && RecordBarrier(s)
  }

  // ----- each step keeps each part -----

  ghost predicate Attributes(step: Step) {
    step.Attribute? || step.DrainAttribute?
  }

  lemma {:induction false} AssignedToAppend(log: seq<Handled>, h: Handled, id: nat)
    ensures AssignedTo(log + [h], id) ==
      AssignedTo(log, id) + if h.outcome.Assigned? && h.outcome.scope == id then [h.effect] else []
  {
    assert (log + [h])[..|log|] == log;
  }

  lemma EffectsOfAppend(log: seq<Handled>, h: Handled)
    ensures EffectsOf(log + [h]) == EffectsOf(log) + [h.effect]
  {
  }

  lemma FlowKept(s: State, step: Step)
    requires Flow(s) && Enabled(s, step)
    ensures Flow(Do(s, step))
  {
    if Attributes(step) {
      AttributeFlow(s, step);
    } else if step.Receive? || step.DrainReceive? {
      ReceiveFlow(s, step);
    } else {
      assert Do(s, step).log == s.log && Held(Do(s, step).collector) == Held(s.collector);
    }
  }

  lemma AttributeFlow(s: State, step: Step)
    requires Flow(s) && Enabled(s, step) && Attributes(step)
    ensures Flow(Do(s, step))
  {
    EffectsOfAppend(s.log, Handled(s.collector.e, OutcomeOf(s.scopes, s.collector.e)));
    assert Held(s.collector) == [s.collector.e] && Held(Do(s, step).collector) == [];
  }

  lemma ReceiveFlow(s: State, step: Step)
    requires Flow(s) && Enabled(s, step) && (step.Receive? || step.DrainReceive?)
    ensures Flow(Do(s, step))
  {
    var t := Do(s, step);
    assert Held(s.collector) == [];
    assert Held(t.collector) + t.channel == s.channel;
  }

  /** The steps that touch the scopes, the log or the records. */
  ghost predicate TouchesScopes(step: Step) {
    step.DrawID? || step.Enter? || step.Mark? || step.Take? || Attributes(step)
  }

  lemma OthersLeaveScopes(s: State, step: Step)
    requires Enabled(s, step) && !TouchesScopes(step)
    ensures var t := Do(s, step);
      t.scopes == s.scopes && t.pending == s.pending && t.nextID == s.nextID && t.began == s.began
      && t.log == s.log && t.records == s.records
  {
  }

  lemma IdentitiesKept(s: State, step: Step)
    requires Identities(s) && Enabled(s, step)
    ensures Identities(Do(s, step))
  {
    if !TouchesScopes(step) {
      OthersLeaveScopes(s, step);
    } else if step.DrawID? || step.Enter? {
      NewIdentities(s, step);
    } else if step.Take? {
      RetiredIdentities(s, step);
    } else {
      var t := Do(s, step);
      assert t.scopes.Keys == s.scopes.Keys && t.records == s.records && t.began == s.began && t.pending == s.pending;
    }
  }

  lemma SettledKept(s: State, step: Step)
    requires Identities(s) && Settled(s) && Enabled(s, step)
    ensures Settled(Do(s, step))
  {
    if !TouchesScopes(step) {
      OthersLeaveScopes(s, step);
    } else if step.Take? {
      RetiredSettled(s, step);
    } else {
      assert Do(s, step).records == s.records;
    }
  }

  lemma RetiredSettled(s: State, step: Step)
    requires Settled(s) && Enabled(s, step) && step.Take?
    ensures Settled(Do(s, step))
  {
    var f := s.finishers[step.q];
    if f.scope in s.scopes {
      var r := TakeRecord(s, step.q);
      ScopesOfAppend(s.records, r);
    }
  }

  lemma ScopesOfAppend(records: seq<Record>, r: Record)
    ensures ScopesOf(records + [r]) == ScopesOf(records) + {r.scope}
  {
    var all := records + [r];
    assert all[|records|] == r;
    forall x | x in ScopesOf(records) ensures x in ScopesOf(all) {
      var i :| 0 <= i < |records| && records[i].scope == x;
      assert all[i].scope == x;
    }
  }

  lemma NewIdentities(s: State, step: Step)
    requires Identities(s) && Enabled(s, step) && (step.DrawID? || step.Enter?)
    ensures Identities(Do(s, step))
  {
  }

  lemma RetiredIdentities(s: State, step: Step)
    requires Identities(s) && Enabled(s, step) && step.Take?
    ensures Identities(Do(s, step))
  {
  }

  lemma ScopeContentsKept(s: State, step: Step)
    requires Identities(s) && Outcomes(s) && ScopeContents(s) && Enabled(s, step)
    ensures ScopeContents(Do(s, step))
  {
    var t := Do(s, step);
    if !TouchesScopes(step) {
      OthersLeaveScopes(s, step);
    } else if Attributes(step) {
      var h := Handled(s.collector.e, OutcomeOf(s.scopes, s.collector.e));
      forall id | id in t.scopes ensures t.scopes[id].effects == AssignedTo(t.log, id) {
        AssignedToAppend(s.log, h, id);
      }
    } else if step.Enter? {
      NeverAssigned(s.log, step.id);
    }
  }

  lemma {:induction false} NeverAssigned(log: seq<Handled>, id: nat)
    requires forall j :: 0 <= j < |log| && log[j].outcome.Assigned? ==> log[j].outcome.scope != id
    ensures AssignedTo(log, id) == []
  {
    if log != [] { NeverAssigned(log[..|log| - 1], id); }
  }

  lemma RecordContentsKept(s: State, step: Step)
    requires Identities(s) && ScopeContents(s) && RecordContents(s) && Enabled(s, step)
    ensures RecordContents(Do(s, step))
  {
    if !TouchesScopes(step) {
      OthersLeaveScopes(s, step);
    } else if Attributes(step) {
      RecordsIgnoreLaterLog(s, step);
    } else if step.Take? {
      assert s.log[..|s.log|] == s.log;
    }
  }

  lemma RecordsIgnoreLaterLog(s: State, step: Step)
    requires Identities(s) && RecordContents(s) && Enabled(s, step) && Attributes(step)
    ensures RecordContents(Do(s, step))
  {
    var t := Do(s, step);
    var h := Handled(s.collector.e, OutcomeOf(s.scopes, s.collector.e));
    forall i | 0 <= i < |t.records|
      ensures var r := t.records[i];
        r.effects == AssignedTo(t.log, r.scope) == AssignedTo(t.log[..r.until], r.scope)
    {
      AssignedToAppend(s.log, h, s.records[i].scope);
      assert t.log[..s.records[i].until] == s.log[..s.records[i].until];
    }
  }

  lemma OutcomesKept(s: State, step: Step)
    requires Identities(s) && Outcomes(s) && Enabled(s, step)
    ensures Outcomes(Do(s, step))
  {
    if !TouchesScopes(step) { OthersLeaveScopes(s, step); }
  }

  lemma ClosingsKept(s: State, step: Step)
    requires Closings(s) && Enabled(s, step)
    ensures Closings(Do(s, step))
  {
    if !TouchesScopes(step) {
      OthersLeaveScopes(s, step);
    } else if Attributes(step) {
      assert Do(s, step).scopes.Keys == s.scopes.Keys;
    }
  }

  /** The rule applied once: an open scope can claim the effect just handled. */
  lemma HandledIsClaimed(s: State, e: Effect, id: nat)
    requires Closings(s) && id in s.scopes
    ensures Claimed(Handled(e, OutcomeOf(s.scopes, e)), id, s.scopes[id].startedAt, s.closings)
  {
    var scope := s.scopes[id];
    if scope.startedAt <= e.timestamp && (forall c :: c in s.closings && c.0 == id ==> e.timestamp <= c.1) {
      assert Eligible(scope, e.timestamp) by {
        if scope.closedAt != 0 { assert (id, scope.closedAt) in s.closings; }
      }
      assert SomeEligible(s.scopes, e.timestamp);
    }
  }

  lemma ClaimedUnderMoreClosings(h: Handled, id: nat, startedAt: int, closings: set<(nat, int)>, more: set<(nat, int)>)
    requires Claimed(h, id, startedAt, closings) && closings <= more
    ensures Claimed(h, id, startedAt, more)
  {
  }

  lemma OpenClaimsKept(s: State, step: Step)
    requires Identities(s) && Closings(s) && OpenClaims(s) && Enabled(s, step)
    ensures OpenClaims(Do(s, step))
  {
    var t := Do(s, step);
    forall id, j | id in t.scopes && id in t.began && t.began[id] <= j < |t.log|
      ensures Claimed(t.log[j], id, t.scopes[id].startedAt, t.closings)
    {
      if j == |s.log| {
        HandledIsClaimed(s, s.collector.e, id);
      } else {
        RecordsOnlyGrow(s, step);
        OpenBefore(s, step, id, j);
        ClaimedUnderMoreClosings(s.log[j], id, s.scopes[id].startedAt, s.closings, t.closings);
      }
    }
  }

  /** A scope that is open after a step and began before it was open then, with the same start. */
  lemma OpenBefore(s: State, step: Step, id: nat, j: nat)
    requires Identities(s) && Enabled(s, step)
    requires var t := Do(s, step); id in t.scopes && id in t.began && t.began[id] <= j < |s.log|
    ensures var t := Do(s, step);
      id in s.scopes && id in s.began && s.began[id] == t.began[id] && t.scopes[id].startedAt == s.scopes[id].startedAt
  {
    if !TouchesScopes(step) { OthersLeaveScopes(s, step); }
  }

  ghost predicate Retires(s: State, step: Step, t: State)
    requires Enabled(s, step)
  {
    && step.Take? && t.log == s.log && t.closings == s.closings
    && s.finishers[step.q].scope in s.scopes && t.records == s.records + [TakeRecord(s, step.q)]
  }

  lemma RecordsOnlyGrow(s: State, step: Step)
    requires Enabled(s, step)
    ensures var t := Do(s, step);
      && s.records <= t.records && s.log <= t.log && s.closings <= t.closings
      && (t.records == s.records || Retires(s, step, t))
  {
    match step
    case Take(_) =>
    case Attribute =>
    case DrainAttribute =>
    case _ => assert Do(s, step).records == s.records && Do(s, step).log == s.log;
  }

  lemma RecordClaimsKept(s: State, step: Step)
    requires Identities(s) && RecordContents(s) && OpenClaims(s) && RecordClaims(s) && Enabled(s, step)
    ensures RecordClaims(Do(s, step))
  {
    var t := Do(s, step);
    RecordsOnlyGrow(s, step);
    forall i, j | 0 <= i < |t.records| && t.records[i].began <= j < t.records[i].until && j < |t.log|
      ensures Claimed(t.log[j], t.records[i].scope, t.records[i].startedAt, t.closings)
    {
      if i < |s.records| {
        ClaimedUnderMoreClosings(s.log[j], s.records[i].scope, s.records[i].startedAt, s.closings, t.closings);
      } else {
        var id := t.records[i].scope;
        assert id in s.scopes && s.began[id] <= j < |s.log|;
      }
    }
  }

  ghost predicate TouchesFinishers(step: Step) {
    step.Finish? || step.Mark? || step.Handshake? || step.SkipFlush? || step.SeeFlushed? || step.Take?
  }

  lemma AcksKept(s: State, step: Step)
    requires Acks(s) && Barrier(s) && Enabled(s, step)
    ensures Acks(Do(s, step))
  {
    var t := Do(s, step);
    if TouchesFinishers(step) {
      FinisherAcksKept(s, step);
    } else {
      assert t.finishers == s.finishers && t.nextAck == s.nextAck;
      if step.DrainEnd? {
        forall q | q in s.finishers && s.finishers[q].pc.Offering? ensures s.finishers[q].pc.ack !in t.closedAcks {
          assert Flushing(s, s.finishers[q]);
        }
      }
    }
  }

  /** One finisher moves; its barrier request is an old one, or new and unused so far. */
  lemma FinisherAcksKept(s: State, step: Step)
    requires Acks(s) && Enabled(s, step) && TouchesFinishers(step)
    ensures Acks(Do(s, step))
  {
    OneFinisherMoves(s, step);
    AcksFrame(s, Do(s, step), step.q);
  }

  lemma OneFinisherMoves(s: State, step: Step)
    requires Acks(s) && Enabled(s, step) && TouchesFinishers(step)
    ensures var t := Do(s, step);
      && t.closedAcks == s.closedAcks && s.nextAck <= t.nextAck
      && step.q in t.finishers && t.finishers == s.finishers[step.q := t.finishers[step.q]]
      && (AckOf(t.finishers[step.q], s.nextAck) ==> s.nextAck < t.nextAck)
      && forall ack :: AckOf(t.finishers[step.q], ack) && ack != s.nextAck ==>
           step.q in s.finishers && AckOf(s.finishers[step.q], ack)
             && (t.finishers[step.q].pc.Offering? ==> s.finishers[step.q].pc.Offering?)
  {
    match step
    case Finish(_, _, _) =>
    case Mark(_) =>
    case Handshake(_) =>
    case SkipFlush(_) =>
    case SeeFlushed(_) =>
    case Take(_) =>
  }

  lemma AcksFrame(s: State, t: State, q: nat)
    requires Acks(s) && t.closedAcks == s.closedAcks && s.nextAck <= t.nextAck
    requires q in t.finishers && t.finishers == s.finishers[q := t.finishers[q]]
    requires AckOf(t.finishers[q], s.nextAck) ==> s.nextAck < t.nextAck
    requires forall ack :: AckOf(t.finishers[q], ack) && ack != s.nextAck ==>
      q in s.finishers && AckOf(s.finishers[q], ack) && (t.finishers[q].pc.Offering? ==> s.finishers[q].pc.Offering?)
    ensures Acks(t)
  {
    var f := t.finishers[q];
    assert f.pc.Offering? || f.pc.Awaiting? ==> AckOf(f, f.pc.ack);
    assert forall x :: x in s.finishers ==> !AckOf(s.finishers[x], s.nextAck);
  }

  /** Finishers that a step leaves alone keep what they know. */
  lemma FlushingFrame(s: State, t: State, f: Finisher)
    requires Flushing(s, f)
    requires |s.delivered| <= |t.delivered| && |s.log| <= |t.log| && (s.stopped ==> t.stopped)
    requires t.closedAcks == s.closedAcks || |t.log| == |t.delivered|
    requires DrainAck(t.collector) in {DrainAck(s.collector), None} || !AckOf(f, DrainAck(t.collector).value)
    ensures Flushing(t, f)
  {
  }

  lemma OthersFlushing(s: State, step: Step)
    requires Flow(s) && Enabled(s, step)
    ensures var t := Do(s, step);
      && |s.delivered| <= |t.delivered| && |s.log| <= |t.log| && (s.stopped ==> t.stopped)
      && (t.closedAcks == s.closedAcks || |t.log| == |t.delivered|)
      && (DrainAck(t.collector) in {DrainAck(s.collector), None} ||
          (step.Handshake? && DrainAck(t.collector) == Some(s.finishers[step.q].pc.ack)))
  {
    assert |s.delivered| == |s.log| + |Held(s.collector)| + |s.channel|;
  }

  lemma FlushingKept(s: State, step: Step, q: nat)
    requires Flow(s) && Acks(s) && Barrier(s) && Enabled(s, step)
    requires q in s.finishers && !(TouchesFinishers(step) && step.q == q)
    ensures q in Do(s, step).finishers && Do(s, step).finishers[q] == s.finishers[q]
    ensures Flushing(Do(s, step), s.finishers[q])
  {
    OthersFlushing(s, step);
    if step.Handshake? {
      assert AckOf(s.finishers[step.q], s.finishers[step.q].pc.ack);
    }
    FlushingFrame(s, Do(s, step), s.finishers[q]);
  }

  lemma OwnFlushingKept(s: State, step: Step)
    requires Flow(s) && Acks(s) && Barrier(s) && Enabled(s, step)
    requires TouchesFinishers(step) && step.q in s.finishers
    ensures Flushing(Do(s, step), Do(s, step).finishers[step.q])
  {
    assert Flushing(s, s.finishers[step.q]);
  }

  lemma BarrierKept(s: State, step: Step)
    requires Flow(s) && Acks(s) && Barrier(s) && Enabled(s, step)
    ensures Barrier(Do(s, step))
  {
    forall q | q in Do(s, step).finishers ensures Flushing(Do(s, step), Do(s, step).finishers[q]) {
      if TouchesFinishers(step) && step.q == q {
        if q in s.finishers { OwnFlushingKept(s, step); }
      } else {
        FlushingKept(s, step, q);
      }
    }
    if step.Handshake? { assert s.finishers[step.q].pc.ack < s.nextAck; }
  }

  lemma RecordBarrierKept(s: State, step: Step)
    requires Barrier(s) && RecordBarrier(s) && Enabled(s, step)
    ensures RecordBarrier(Do(s, step))
  {
    if step.Take? { assert Flushing(s, s.finishers[step.q]); }
  }

  lemma HistoryGrows(s: State, step: Step)
    requires Enabled(s, step)
    ensures var t := Do(s, step);
      && t.delivered == s.delivered + (if step.Arrive? then [step.e] else [])
      && s.log <= t.log
  {
  }

  lemma FinishersRemain(s: State, step: Step)
    requires Enabled(s, step)
    ensures s.finishers.Keys <= Do(s, step).finishers.Keys
  {
    if TouchesFinishers(step) { OneKeyUpdated(s, step); }
  }

  lemma OneKeyUpdated(s: State, step: Step)
    requires Enabled(s, step) && TouchesFinishers(step)
    ensures s.finishers.Keys <= Do(s, step).finishers.Keys
  {
    match step
    case Finish(_, _, _) =>
    case Mark(_) =>
    case Handshake(_) =>
    case SkipFlush(_) =>
    case SeeFlushed(_) =>
    case Take(_) =>
  }

  lemma InvKept(s: State, step: Step)
    requires Inv(s) && Enabled(s, step)
    ensures Inv(Do(s, step))
  {
    FlowKept(s, step);
    IdentitiesKept(s, step);
    SettledKept(s, step);
    ScopeContentsKept(s, step);
    RecordContentsKept(s, step);
    OutcomesKept(s, step);
    ClosingsKept(s, step);
    OpenClaimsKept(s, step);
    RecordClaimsKept(s, step);
    AcksKept(s, step);
    BarrierKept(s, step);
    RecordBarrierKept(s, step);
  }

  // ----- runs -----

  ghost predicate Goes(s: State, step: Step, t: State) {
    Enabled(s, step) && t == Do(s, step)
  }

  ghost predicate IsRun(states: seq<State>, steps: seq<Step>) {
    IsPath(Goes, states, steps) && states[0] == INITIAL
  }

  lemma RunInv(states: seq<State>, steps: seq<Step>, i: nat)
    requires IsRun(states, steps) && i < |states|
    ensures Inv(states[i])
  {
    forall s, step, t | Goes(s, step, t) && Inv(s) ensures Inv(t) { InvKept(s, step); }
    InvHolds(Goes, Inv, states, steps, i);
  }

  /** Conservation. Every effect put on the channel is handled, held by the collector or still
      queued, in this order; a handled effect was dropped, or is in its scope's effects while
      the scope is open, or is in the one record of that scope, again in order. */
  lemma EffectsAreConserved(states: seq<State>, steps: seq<Step>, i: nat)
    requires IsRun(states, steps) && i < |states|
    ensures var s := states[i];
      && s.delivered == EffectsOf(s.log) + Held(s.collector) + s.channel
      && (forall id :: id in s.scopes ==> s.scopes[id].effects == AssignedTo(s.log, id))
      && (forall r :: r in s.records ==> r.effects == AssignedTo(s.log, r.scope))
      && (forall j :: 0 <= j < |s.log| && s.log[j].outcome.Assigned? ==>
            s.log[j].outcome.scope in s.scopes.Keys + ScopesOf(s.records))
      && s.scopes.Keys !! ScopesOf(s.records)
  {
    RunInv(states, steps, i);
  }

  /** No scope hands over two records, however many calls race to finish it. */
  lemma OneRecordPerScope(states: seq<State>, steps: seq<Step>, i: nat, x: nat, y: nat)
    requires IsRun(states, steps) && i < |states|
    requires x < |states[i].records| && y < |states[i].records|
    requires states[i].records[x].scope == states[i].records[y].scope
    ensures x == y
  {
    RunInv(states, steps, i);
  }

  /** The barrier. Unless the recorder was stopped, what was on the channel at the flush
      handshake of a finishing call had been attributed before the call read its effects. */
  lemma FlushPrecedesHandOver(states: seq<State>, steps: seq<Step>, i: nat, r: Record)
    requires IsRun(states, steps) && i < |states| && r in states[i].records
    requires !states[i].stopped || r.flushed
    ensures var s := states[i];
      && r.mark <= r.until <= |s.log|
      && r.mark <= |s.delivered| && s.delivered[..r.mark] == EffectsOf(s.log[..r.until])[..r.mark]
      && r.effects == AssignedTo(s.log[..r.until], r.scope)
  {
    RunInv(states, steps, i);
    var s := states[i];
    assert EffectsOf(s.log)[..r.mark] == EffectsOf(s.log[..r.until])[..r.mark];
  }

  /** Attributed effects lie within the bounds their scope had when they were attributed. */
  lemma AttributionRespectsBounds(states: seq<State>, steps: seq<Step>, i: nat, j: nat)
    requires IsRun(states, steps) && i < |states| && j < |states[i].log|
    requires states[i].log[j].outcome.Assigned?
    ensures var h := states[i].log[j];
      && h.outcome.startedAt <= h.effect.timestamp
      && (h.outcome.closedAt != 0 ==> h.effect.timestamp <= h.outcome.closedAt)
  {
    RunInv(states, steps, i);
  }

  /** An effect handled while a recorded scope was open and inside its times is never dropped:
      it is in the record, or it went to a scope that started later, or at the same time and has
      a greater ID. */
  lemma RecordedScopeClaims(states: seq<State>, steps: seq<Step>, i: nat, r: Record, j: nat)
    requires IsRun(states, steps) && i < |states| && r in states[i].records
    requires r.began <= j < r.until && j < |states[i].log|
    requires r.startedAt <= states[i].log[j].effect.timestamp
    requires forall c :: c in states[i].closings && c.0 == r.scope ==> states[i].log[j].effect.timestamp <= c.1
    ensures var h := states[i].log[j];
      && h.outcome.Assigned?
      && ((h.outcome.scope == r.scope && h.effect in r.effects)
          || r.startedAt < h.outcome.startedAt
          || (r.startedAt == h.outcome.startedAt && r.scope < h.outcome.scope))
  {
    RunInv(states, steps, i);
    var s := states[i];
    var x :| 0 <= x < |s.records| && s.records[x] == r;
    assert Claimed(s.log[j], r.scope, r.startedAt, s.closings);
    if s.log[j].outcome.scope == r.scope {
      InAssignedTo(s.log, r.scope, j);
    }
  }

  lemma {:induction false} InAssignedTo(log: seq<Handled>, id: nat, j: nat)
    requires j < |log| && log[j].outcome.Assigned? && log[j].outcome.scope == id
    ensures log[j].effect in AssignedTo(log, id)
  {
    if j < |log| - 1 { InAssignedTo(log[..|log| - 1], id, j); }
  }

  /** x stands somewhere before y. */
  ghost predicate InOrder(es: seq<Effect>, x: Effect, y: Effect) {
    exists p, q :: 0 <= p < q < |es| && es[p] == x && es[q] == y
  }

  lemma {:induction false} AssignedInOrder(log: seq<Handled>, id: nat, j: nat, k: nat)
    requires j < k < |log|
    requires log[j].outcome.Assigned? && log[j].outcome.scope == id
    requires log[k].outcome.Assigned? && log[k].outcome.scope == id
    ensures InOrder(AssignedTo(log, id), log[j].effect, log[k].effect)
    decreases |log|
  {
    var last := |log| - 1;
    var own, before := AssignedTo(log, id), AssignedTo(log[..last], id);
    assert own[..|before|] == before;
    assert log[..last][j] == log[j];
    if k < last {
      assert log[..last][k] == log[k];
      AssignedInOrder(log[..last], id, j, k);
      var p, q :| 0 <= p < q < |before| && before[p] == log[j].effect && before[q] == log[k].effect;
      assert own[p] == log[j].effect && own[q] == log[k].effect;
    } else {
      InAssignedTo(log[..last], id, j);
      var p :| 0 <= p < |before| && before[p] == log[j].effect;
      assert own == before + [log[k].effect];
      assert own[p] == log[j].effect && own[|before|] == log[k].effect;
    }
  }

  /** A record holds its effects in the order in which they were handled. */
  lemma RecordsKeepOrder(states: seq<State>, steps: seq<Step>, i: nat, r: Record, j: nat, k: nat)
    requires IsRun(states, steps) && i < |states| && r in states[i].records
    requires j < k < r.until && k < |states[i].log|
    requires states[i].log[j].outcome.Assigned? && states[i].log[j].outcome.scope == r.scope
    requires states[i].log[k].outcome.Assigned? && states[i].log[k].outcome.scope == r.scope
    ensures InOrder(r.effects, states[i].log[j].effect, states[i].log[k].effect)
  {
    RunInv(states, steps, i);
    var s := states[i];
    var x :| 0 <= x < |s.records| && s.records[x] == r;
    AssignedInOrder(s.log, r.scope, j, k);
    assert r.effects == AssignedTo(s.log, r.scope);
  }
}
