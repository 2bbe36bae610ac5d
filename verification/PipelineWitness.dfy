/** One complete run of the delivery path: a request whose effect is enqueued while it is being
    served, flushed, and found in its record. */
module PipelineWitness {
  import opened Effects
  import opened Attribution
  import opened Runs
  import F = Forwarder
  import R = Recorder
  import opened Pipeline

  const E := Effect(0, 0, 7)

  ghost const START: State := State([F.INITIAL], R.INITIAL, map[])

  lemma Go(s: State, step: Step) returns (t: State)
    requires Leads(Goes, START, s) && Enabled(s, step)
    ensures t == Do(s, step) && Leads(Goes, START, t)
  {
    t := Do(s, step);
    GoOn(Goes, START, s, step, t);
  }

  lemma GoHook(s: State, step: F.Step, x: F.State, y: F.State) returns (t: State)
    requires Leads(Goes, START, s) && s.fs == [x] && Enabled(s, InForwarder(0, step)) && y == F.Do(x, step)
    ensures Leads(Goes, START, t) && t == State([y], s.r, s.hs)
  {
    t := Go(s, InForwarder(0, step));
    assert [x][0 := y] == [y];
  }

  /** The forwarder while the handler waits for it; w is where the wait stands. */
  ghost function Hook(source: seq<Effect>, pc: F.Pc, inFlight: int, acks: nat, closed: set<nat>,
    waiters: map<nat, F.Waiter>, sent: seq<Effect>): F.State
  {
    F.State(source, false, false, pc, inFlight, acks, closed, waiters, [E], sent, [])
  }

  ghost function Waiting(pc: F.WaiterPc): map<nat, F.Waiter> {
    map[0 := F.Waiter(pc, 1)]
  }

  /** The recorder with the request's scope, which started at 5, open. */
  ghost function ScopeOpen(channel: seq<Effect>): R.State {
    R.State(channel, R.Idle, map[1 := Scope(5, 0, [])], map[], 1, false, 0, {}, map[],
      channel, [], map[1 := 0], {}, [])
  }

  lemma ScopeOpened() returns (s: State)
    ensures Leads(Goes, START, s)
    ensures s == State([F.INITIAL], ScopeOpen([]), map[0 := Handler(Serving, 1, false, [])])
  {
    Stay(Goes, START);
    s := START;
    s := Go(s, Open(0, 5));
    s := Go(s, Opened(0));
    assert s.r.pending == map[] && s.r == ScopeOpen([]);
    assert s.hs == map[0 := Handler(Serving, 1, false, [])];
  }

  lemma Served() returns (s: State)
    ensures Leads(Goes, START, s)
    ensures s ==
      State([Hook([E], F.AtSelect, 0, 0, {}, map[], [])], ScopeOpen([]), map[0 := Handler(Serving, 1, false, [])])
  {
    s := ScopeOpened();
    var hook := Hook([E], F.AtSelect, 0, 0, {}, map[], []);
    var empty: seq<Effect> := [];
    assert empty + [E] == [E] && F.Do(F.INITIAL, F.Enqueue(E)) == hook;
    s := GoHook(s, F.Enqueue(E), F.INITIAL, hook);
  }

  /** The handler's flush of the hooks has returned nil. */
  ghost function FlushBegun(): State {
    State([Hook([E], F.AtSelect, 0, 0, {}, map[], [])], ScopeOpen([]), map[0 := Handler(Flushing(0), 1, true, [])])
  }

  lemma FlushBegunReached() returns (s: State)
    ensures Leads(Goes, START, s) && s == FlushBegun()
  {
    s := Served();
    s := Go(s, HooksFlushed(0, true));
    assert s.hs == map[0 := Handler(Flushing(0), 1, true, [])];
  }

  // ----- from there on, by steps of forwarders, recorder and waits -----

  ghost predicate Delivery(step: Step) {
    match step
    case InForwarder(_, fs) => !fs.Enqueue? && !fs.CloseSource?
    case HooksFlushed(_, _) => false
    case NoFlush(_) => false
    case _ => true
  }

  ghost predicate Delivers(s: State, step: Step, t: State) {
    Delivery(step) && Enabled(s, step) && t == Do(s, step)
  }

  lemma GoDelivering(s: State, step: Step) returns (t: State)
    requires Leads(Delivers, FlushBegun(), s) && Delivery(step) && Enabled(s, step)
    ensures t == Do(s, step) && Leads(Delivers, FlushBegun(), t)
  {
    t := Do(s, step);
    GoOn(Delivers, FlushBegun(), s, step, t);
  }

  lemma FollowingIsReachable(s: State)
    requires Leads(Delivers, FlushBegun(), s)
    ensures Leads(Goes, START, s)
  {
    var begun := FlushBegunReached();
    var reachable := t => Leads(Goes, START, t);
    forall t, step, u | Delivers(t, step, u) && reachable(t) ensures reachable(u) { GoOn(Goes, START, t, step, u); }
    InvHoldsThere(Delivers, reachable, begun, s);
  }

  lemma WaitBegun() returns (s: State)
    ensures Leads(Delivers, FlushBegun(), s)
    ensures s == State([Hook([E], F.AtSelect, 0, 0, {}, Waiting(F.ReadLen), [])], ScopeOpen([]),
      map[0 := Handler(Flushing(0), 1, true, [1])])
  {
    Stay(Delivers, FlushBegun());
    s := FlushBegun();
    var marks: seq<nat> := [];
    assert marks + [1] == [1];
    s := GoDelivering(s, Wait(0));
    assert s.fs == [Hook([E], F.AtSelect, 0, 0, {}, Waiting(F.ReadLen), [])];
    assert s.hs == map[0 := Handler(Flushing(0), 1, true, [1])];
  }

  /** The handler is waiting for the forwarder, which stands as given. */
  ghost predicate InWait(s: State, hook: F.State, r: R.State) {
    Leads(Delivers, FlushBegun(), s) && s == State([hook], r, map[0 := Handler(Flushing(0), 1, true, [1])])
  }

  lemma StepInWait(s: State, x: F.State, r: R.State, step: F.Step, y: F.State) returns (t: State)
    requires InWait(s, x, r) && F.Enabled(x, step) && !step.Send? && !step.Call? && !step.Enqueue? && !step.CloseSource?
    requires y == F.Do(x, step)
    ensures InWait(t, y, r)
  {
    t := GoDelivering(s, InForwarder(0, step));
    assert [x][0 := y] == [y];
  }

  lemma Counted() returns (s: State)
    ensures InWait(s, Hook([], F.Sending(E), 1, 0, {}, Waiting(F.ReadLen), []), ScopeOpen([]))
  {
    s := WaitBegun();
    var w, r, none := Waiting(F.ReadLen), ScopeOpen([]), [];
    assert [E][1..] == none;
    s := StepInWait(s, s.fs[0], r, F.Receive, Hook([], F.Received(E), 0, 0, {}, w, []));
    s := StepInWait(s, s.fs[0], r, F.CountUp, Hook([], F.Sending(E), 1, 0, {}, w, []));
  }

  lemma Forwarded() returns (s: State)
    ensures InWait(s, Hook([], F.AtSelect, 0, 0, {}, Waiting(F.ReadLen), [E]), ScopeOpen([E]))
  {
    s := Counted();
    var none: seq<Effect> := [];
    assert none + [E] == [E];
    s := GoDelivering(s, Forward(0));
    var hook := Hook([], F.Sent, 1, 0, {}, Waiting(F.ReadLen), [E]);
    assert s.fs == [hook] && s.r == ScopeOpen([E]);
    s := StepInWait(s, hook, ScopeOpen([E]), F.CountDown, Hook([], F.AtSelect, 0, 0, {}, Waiting(F.ReadLen), [E]));
  }

  /** The forwarder with nothing left to forward. */
  ghost function Quiet(pc: F.Pc, acks: nat, closed: set<nat>, w: F.WaiterPc): F.State {
    Hook([], pc, 0, acks, closed, Waiting(w), [E])
  }

  lemma LooksDrained() returns (s: State)
    ensures InWait(s, Quiet(F.AtSelect, 1, {}, F.Offering(0)), ScopeOpen([E]))
  {
    s := Forwarded();
    s := StepInWait(s, s.fs[0], s.r, F.LookLen(0), Quiet(F.AtSelect, 0, {}, F.ReadCount));
    s := StepInWait(s, s.fs[0], s.r, F.LookCount(0), Quiet(F.AtSelect, 1, {}, F.Offering(0)));
  }

  lemma BarrierPassed() returns (s: State)
    ensures InWait(s, Quiet(F.AtSelect, 1, {0}, F.Awaiting(0)), ScopeOpen([E]))
  {
    s := LooksDrained();
    s := StepInWait(s, s.fs[0], s.r, F.TakeBarrier(0), Quiet(F.Acking(0), 1, {}, F.Awaiting(0)));
    s := StepInWait(s, s.fs[0], s.r, F.CloseAck, Quiet(F.AtSelect, 1, {0}, F.Awaiting(0)));
  }

  lemma ReadAgain() returns (s: State)
    ensures InWait(s, Quiet(F.AtSelect, 1, {0}, F.ReReadCount), ScopeOpen([E]))
  {
    s := BarrierPassed();
    s := StepInWait(s, s.fs[0], s.r, F.SeeAck(0), Quiet(F.AtSelect, 1, {0}, F.ReReadLen));
    s := StepInWait(s, s.fs[0], s.r, F.LookLenAgain(0), Quiet(F.AtSelect, 1, {0}, F.ReReadCount));
  }

  lemma FlushReturned() returns (s: State)
    ensures Leads(Delivers, FlushBegun(), s) && |s.fs| == 1 && !s.fs[0].cancelled && s.r == ScopeOpen([E])
    ensures s.hs == map[0 := Handler(Flushed, 1, true, [1])]
  {
    s := ReadAgain();
    s := StepInWait(s, s.fs[0], s.r, F.LookCountAgain(0), Quiet(F.AtSelect, 1, {0}, F.Returned(true, true)));
    s := GoDelivering(s, Waited(0));
    assert s.hs == map[0 := Handler(Flushed, 1, true, [1])];
  }

  /** The recorder while the scope, closed at 9, is being finished. */
  ghost function Closing(channel: seq<Effect>, collector: R.Collector, effects: seq<Effect>, closedAcks: set<nat>,
    pc: R.FinisherPc, mark: nat, log: seq<R.Handled>): R.State
  {
    R.State(channel, collector, map[1 := Scope(5, 9, effects)], map[], 1, false, 1, closedAcks,
      map[0 := R.Finisher(1, 9, pc, mark)], [E], log, map[1 := 0], {(1, 9)}, [])
  }

  /** The handler is finishing the scope, and the recorder stands as given. */
  ghost predicate InFinish(s: State, r: R.State) {
    && Leads(Delivers, FlushBegun(), s) && |s.fs| == 1 && !s.fs[0].cancelled && s.r == r
    && s.hs == map[0 := Handler(Finishing, 1, true, [1])]
  }

  lemma StepInFinish(s: State, x: R.State, step: R.Step, y: R.State) returns (t: State)
    requires InFinish(s, x) && R.Enabled(x, step) && y == R.Do(x, step)
    requires !step.Arrive? && !step.DrawID? && !step.Enter? && !step.Take? && !step.Finish?
    ensures InFinish(t, y)
  {
    t := GoDelivering(s, InRecorder(step));
  }

  lemma Finishes() returns (s: State)
    ensures InFinish(s, Finished())
  {
    s := FlushReturned();
    s := GoDelivering(s, Finish(0, 9));
    assert s.hs == map[0 := Handler(Finishing, 1, true, [1])];
    assert s.r.finishers == map[0 := R.Finisher(1, 9, R.Marking, 0)] && s.r.closings == {(1, 9)};
  }

  ghost function Finished(): R.State {
    ScopeOpen([E]).(finishers := map[0 := R.Finisher(1, 9, R.Marking, 0)], closings := {(1, 9)})
  }

  lemma HandshakeDone() returns (s: State)
    ensures InFinish(s, Closing([E], R.Draining(R.ForFlush(0)), [], {}, R.Awaiting(0), 1, []))
  {
    s := Finishes();
    s := StepInFinish(s, Finished(), R.Mark(0), Closing([E], R.Idle, [], {}, R.Offering(0), 0, []));
    s := StepInFinish(s, s.r, R.Handshake(0), Closing([E], R.Draining(R.ForFlush(0)), [], {}, R.Awaiting(0), 1, []));
  }

  lemma OnlyScopeIsBest(effects: seq<Effect>)
    ensures Best(map[1 := Scope(5, 9, effects)], 7) == Some(1)
  {
    var scopes := map[1 := Scope(5, 9, effects)];
    assert 1 in scopes && Eligible(scopes[1], 7);
  }

  ghost const LOG: seq<R.Handled> := [R.Handled(E, R.Assigned(1, 5, 9))]

  lemma Attributed() returns (s: State)
    ensures InFinish(s, Closing([], R.Draining(R.ForFlush(0)), [E], {}, R.Awaiting(0), 1, LOG))
  {
    s := HandshakeDone();
    var none: seq<Effect> := [];
    assert [E][1..] == none && none + [E] == [E];
    s := StepInFinish(s, s.r, R.DrainReceive,
      Closing([], R.DrainHolding(E, R.ForFlush(0)), [], {}, R.Awaiting(0), 1, []));
    OnlyScopeIsBest([]);
    assert Assign(s.r.scopes, E) == map[1 := Scope(5, 9, [E])];
    s := StepInFinish(s, s.r, R.DrainAttribute, Closing([], R.Draining(R.ForFlush(0)), [E], {}, R.Awaiting(0), 1, LOG));
  }

  lemma Drained() returns (s: State)
    ensures InFinish(s, Closing([], R.Idle, [E], {0}, R.Taking(true), 1, LOG))
  {
    s := Attributed();
    s := StepInFinish(s, s.r, R.DrainEnd, Closing([], R.Idle, [E], {0}, R.Awaiting(0), 1, LOG));
    s := StepInFinish(s, s.r, R.SeeFlushed(0), Closing([], R.Idle, [E], {0}, R.Taking(true), 1, LOG));
  }

  lemma RecordMade() returns (s: State)
    ensures Leads(Delivers, FlushBegun(), s) && NoneCancelled(s) && !s.r.stopped && |s.fs| == 1
    ensures |s.r.records| == 1 && s.r.records[0].effects == [E] && s.r.records[0].flushed
    ensures s.r.records[0].finisher == 0 && 0 in s.hs && s.hs[0] == Handler(Done(true), 1, true, [1])
  {
    s := Drained();
    assert NoneCancelled(s);
    s := GoDelivering(s, InRecorder(R.Take(0)));
  }

  /** A run in which everything the delivery theorem supposes comes true: the flush succeeds,
      nothing is stopped or cancelled, and the effect is in the request's record. */
  lemma EffectIsRecorded() returns (s: State)
    ensures Leads(Goes, START, s) && NoneCancelled(s) && !s.r.stopped
    ensures |s.r.records| == 1 && s.r.records[0].effects == [E] && s.r.records[0].flushed
    ensures s.r.records[0].finisher == 0 && 0 in s.hs && s.hs[0] == Handler(Done(true), 1, true, [1])
  {
    s := RecordMade();
    FollowingIsReachable(s);
  }
}
