/** The goroutine that moves effects from a hook's channel to the recorder, and the callers
    that wait until it has drained, as interleaved atomic steps. */
module Forwarder {
  import opened Effects
  import opened Runs

  /** Where the forwarding goroutine stands. */
  datatype Pc =
    | AtSelect
    | Received(e: Effect)   // taken from the source, not yet counted
    | Sending(e: Effect)    // counted, waiting for the sink
    | Sent                  // in the sink, still counted
    | Aborting(e: Effect)   // gave the send up, still counted
    | Acking(ack: nat)      // took a barrier request, has not closed it
    | Leaving               // returning, done not yet closed
    | Exited

  /** Where a call of WaitDrained stands; ack is the channel made by its current barrier. */
  datatype WaiterPc =
    | ReadLen
    | ReadCount
    | Offering(ack: nat)
    | OfferSawDone(ack: nat)
    | Awaiting(ack: nat)
    | ReReadLen
    | ReReadCount
    | Polling
    | PollSawDone
    | Returned(ok: bool, clean: bool)

  /** mark is the number of effects the hook had produced when the call began. */
  datatype Waiter = Waiter(pc: WaiterPc, mark: nat)

  datatype State = State(
    source: seq<Effect>,
    closed: bool,
    cancelled: bool,
    pc: Pc,
    inFlight: int,
    nextAck: nat,
    closedAcks: set<nat>,
    waiters: map<nat, Waiter>,
    // history: produced by the hook, delivered to the sink, given up on cancellation
    enqueued: seq<Effect>,
    sent: seq<Effect>,
    lost: seq<Effect>)

  const CAPACITY := 1000

  ghost const INITIAL: State :=
    State([], false, false, AtSelect, 0, 0, {}, map[], [], [], [])

  datatype Step =
    // environment
    | Enqueue(e: Effect)
    | CloseSource
    | Cancel
    // forwarding goroutine
    | Receive
    | CountUp
    | Send
    | CountDown
    | Abort
    | AbortCountDown
    | SeeClosed
    | SeeCancelled
    | TakeBarrier(w: nat)
    | CloseAck
    | CloseDone
    // WaitDrained
    | Call(w: nat)
    | LookLen(w: nat)
    | LookCount(w: nat)
    | OfferDone(w: nat)
    | AfterOfferDone(w: nat)
    | SeeAck(w: nat)
    | AwaitDone(w: nat)
    | LookLenAgain(w: nat)
    | LookCountAgain(w: nat)
    | Tick(w: nat)
    | PollDone(w: nat)
    | AfterPollDone(w: nat)
    | TimeOut(w: nat)

  ghost predicate At(s: State, w: nat, pc: WaiterPc) {
    w in s.waiters && s.waiters[w].pc == pc
  }

  ghost predicate MayTimeOut(pc: WaiterPc) {
    pc.Offering? || pc.Awaiting? || pc.Polling?
  }

  ghost predicate Enabled(s: State, step: Step) {
    match step
    case Enqueue(_) => !s.closed && |s.source| < CAPACITY
    case CloseSource => !s.closed
    case Cancel => true
    case Receive => s.pc.AtSelect? && s.source != []
    case CountUp => s.pc.Received?
    case Send => s.pc.Sending?
    case CountDown => s.pc.Sent?
    case Abort => s.pc.Sending? && s.cancelled
    case AbortCountDown => s.pc.Aborting?
    case SeeClosed => s.pc.AtSelect? && s.source == [] && s.closed
    case SeeCancelled => s.pc.AtSelect? && s.cancelled
    case TakeBarrier(w) => s.pc.AtSelect? && w in s.waiters && s.waiters[w].pc.Offering?
    case CloseAck => s.pc.Acking?
    case CloseDone => s.pc.Leaving?
    case Call(w) => w in s.waiters ==> s.waiters[w].pc.Returned?
    case LookLen(w) => At(s, w, ReadLen)
    case LookCount(w) => At(s, w, ReadCount)
    case OfferDone(w) => w in s.waiters && s.waiters[w].pc.Offering? && s.pc.Exited?
    case AfterOfferDone(w) => w in s.waiters && s.waiters[w].pc.OfferSawDone?
    case SeeAck(w) => w in s.waiters && s.waiters[w].pc.Awaiting? && s.waiters[w].pc.ack in s.closedAcks
    case AwaitDone(w) => w in s.waiters && s.waiters[w].pc.Awaiting? && s.pc.Exited?
    case LookLenAgain(w) => At(s, w, ReReadLen)
    case LookCountAgain(w) => At(s, w, ReReadCount)
    case Tick(w) => At(s, w, Polling)
    case PollDone(w) => At(s, w, Polling) && s.pc.Exited?
    case AfterPollDone(w) => At(s, w, PollSawDone)
    case TimeOut(w) => w in s.waiters && MayTimeOut(s.waiters[w].pc)
  }

  ghost function Goto(s: State, w: nat, pc: WaiterPc): State
    requires w in s.waiters
  {
    s.(waiters := s.waiters[w := s.waiters[w].(pc := pc)])
  }

  ghost function Do(s: State, step: Step): State
    requires Enabled(s, step)
  {
    match step
    case Enqueue(e) => s.(source := s.source + [e], enqueued := s.enqueued + [e])
    case CloseSource => s.(closed := true)
    case Cancel => s.(cancelled := true)
    case Receive => s.(source := s.source[1..], pc := Received(s.source[0]))
    case CountUp => s.(inFlight := s.inFlight + 1, pc := Sending(s.pc.e))
    case Send => s.(sent := s.sent + [s.pc.e], pc := Sent)
    case CountDown => s.(inFlight := s.inFlight - 1, pc := AtSelect)
    case Abort => s.(pc := Aborting(s.pc.e))
    case AbortCountDown => s.(inFlight := s.inFlight - 1, lost := s.lost + [s.pc.e], pc := Leaving)
    case SeeClosed => s.(pc := Leaving)
    case SeeCancelled => s.(pc := Leaving)
    case TakeBarrier(w) =>
      var ack := s.waiters[w].pc.ack;
      Goto(s, w, Awaiting(ack)).(pc := Acking(ack))
    case CloseAck => s.(closedAcks := s.closedAcks + {s.pc.ack}, pc := AtSelect)
    case CloseDone => s.(pc := Exited)
    case Call(w) => s.(waiters := s.waiters[w := Waiter(ReadLen, |s.enqueued|)])
    case LookLen(w) => Goto(s, w, if |s.source| == 0 then ReadCount else Polling)
    case LookCount(w) =>
      if s.inFlight == 0 then Goto(s, w, Offering(s.nextAck)).(nextAck := s.nextAck + 1)
      else Goto(s, w, Polling)
    case OfferDone(w) => Goto(s, w, OfferSawDone(s.waiters[w].pc.ack))
    case AfterOfferDone(w) =>
      Goto(s, w, if s.inFlight == 0 then ReReadLen else Awaiting(s.waiters[w].pc.ack))
    case SeeAck(w) => Goto(s, w, ReReadLen)
    case AwaitDone(w) => Goto(s, w, ReReadLen)
    case LookLenAgain(w) => Goto(s, w, if |s.source| == 0 then ReReadCount else Polling)
    case LookCountAgain(w) => Goto(s, w, if s.inFlight == 0 then Returned(true, !s.cancelled) else Polling)
    case Tick(w) => Goto(s, w, ReadLen)
    case PollDone(w) => Goto(s, w, PollSawDone)
    case AfterPollDone(w) => Goto(s, w, if s.inFlight == 0 then Returned(true, !s.cancelled) else ReadLen)
    case TimeOut(w) => Goto(s, w, Returned(false, !s.cancelled))
  }

  // ----- the invariant -----

  /** The effect in the goroutine's hands. */
  ghost function Held(pc: Pc): seq<Effect> {
    if pc.Received? || pc.Sending? || pc.Aborting? then [pc.e] else []
  }

  /** Nothing is lost, duplicated or reordered; what cancellation gives up is the next one. */
  ghost predicate Flow(s: State) {
    && s.enqueued == s.sent + s.lost + Held(s.pc) + s.source
    && (s.lost != [] ==> s.cancelled && (s.pc.Leaving? || s.pc.Exited?))
  }

  ghost predicate Counting(s: State) {
    s.inFlight == if s.pc.Sending? || s.pc.Sent? || s.pc.Aborting? then 1 else 0
  }

  ghost predicate Exiting(s: State) {
    && (s.pc.Aborting? ==> s.cancelled)
    && (s.pc.Leaving? || s.pc.Exited? ==> s.cancelled || (s.closed && s.source == []))
  }

  /** How much of what the caller waits for is known to be delivered. */
  ghost predicate Covered(s: State, w: Waiter) {
    match w.pc
    case ReadLen => true
    case Polling => true
    case ReadCount => s.cancelled || w.mark <= |s.sent| + |Held(s.pc)|
    case Offering(_) => s.cancelled || w.mark <= |s.sent| + |Held(s.pc)|
    case Returned(ok, clean) => (if clean then ok ==> w.mark <= |s.sent| else s.cancelled)
    case _ => s.cancelled || w.mark <= |s.sent|
  }

  ghost predicate Waiting(s: State) {
    forall w :: w in s.waiters ==> s.waiters[w].mark <= |s.enqueued| && Covered(s, s.waiters[w])
  }

  ghost predicate Inv(s: State) {
    Flow(s) && Counting(s) && Exiting(s) && Waiting(s)
  }

  lemma FlowKept(s: State, step: Step)
    requires Flow(s) && Exiting(s) && Enabled(s, step)
    ensures Flow(Do(s, step))
  {
    if step.Enqueue? || step.Receive? {
      QueueFlow(s, step);
    } else if step.Send? || step.AbortCountDown? {
      HandFlow(s, step);
    }
  }

  lemma QueueFlow(s: State, step: Step)
    requires Flow(s) && Enabled(s, step) && (step.Enqueue? || step.Receive?)
    ensures Flow(Do(s, step))
  {
    var t := Do(s, step);
    if step.Receive? {
      assert Held(t.pc) + t.source == s.source;
      assert Held(s.pc) == [];
    }
  }

  lemma HandFlow(s: State, step: Step)
    requires Flow(s) && Exiting(s) && Enabled(s, step) && (step.Send? || step.AbortCountDown?)
    ensures Flow(Do(s, step))
  {
    var t := Do(s, step);
    assert s.lost == [];
    assert t.sent + t.lost == s.sent + Held(s.pc);
    assert Held(t.pc) == [];
  }

  lemma ExitingKept(s: State, step: Step)
    requires Counting(s) && Exiting(s) && Enabled(s, step)
    ensures Counting(Do(s, step)) && Exiting(Do(s, step))
  {
  }

  /** Delivery only goes forward. */
  ghost predicate Advances(s: State, t: State) {
    && (s.cancelled ==> t.cancelled)
    && |s.enqueued| <= |t.enqueued|
    && |s.sent| <= |t.sent|
    && (t.cancelled || |s.sent| + |Held(s.pc)| <= |t.sent| + |Held(t.pc)|)
  }

  lemma StepAdvances(s: State, step: Step)
    requires Exiting(s) && Enabled(s, step)
    ensures Advances(s, Do(s, step))
  {
  }

  ghost predicate WaiterStep(step: Step) {
    step.LookLen? || step.LookCount? || step.OfferDone? || step.AfterOfferDone? || step.SeeAck? || step.AwaitDone?
    || step.LookLenAgain? || step.LookCountAgain? || step.Tick? || step.PollDone?
    || step.AfterPollDone? || step.TimeOut?
  }

  /** A caller's own move keeps what it knows. */
  lemma CallerKept(s: State, step: Step)
    requires Inv(s) && Enabled(s, step) && WaiterStep(step)
    ensures Covered(s, Do(s, step).waiters[step.w])
    ensures Do(s, step).waiters == s.waiters[step.w := Do(s, step).waiters[step.w]]
    ensures Do(s, step).waiters[step.w].mark == s.waiters[step.w].mark
  {
    assert |s.enqueued| == |s.sent| + |s.lost| + |Held(s.pc)| + |s.source|;
    assert s.waiters[step.w].mark <= |s.enqueued|;
  }

  lemma WaitingKept(s: State, step: Step)
    requires Inv(s) && Enabled(s, step)
    ensures Waiting(Do(s, step))
  {
    var t := Do(s, step);
    StepAdvances(s, step);
    if WaiterStep(step) { CallerKept(s, step); }
    forall w | w in t.waiters ensures t.waiters[w].mark <= |t.enqueued| && Covered(t, t.waiters[w]) {
      assert w in s.waiters || step == Call(w);
    }
  }

  lemma HistoryGrows(s: State, step: Step)
    requires Enabled(s, step)
    ensures var t := Do(s, step);
      && t.enqueued == s.enqueued + (if step.Enqueue? then [step.e] else [])
      && t.sent == s.sent + (if step.Send? then [s.pc.e] else [])
      && (s.cancelled ==> t.cancelled)
  {
  }

  lemma InvKept(s: State, step: Step)
    requires Inv(s) && Enabled(s, step)
    ensures Inv(Do(s, step))
  {
    FlowKept(s, step);
    ExitingKept(s, step);
    WaitingKept(s, step);
  }

  // ----- runs -----

  ghost predicate Goes(s: State, step: Step, t: State) {
    Enabled(s, step) && t == Do(s, step)
  }

  ghost predicate IsRun(states: seq<State>, steps: seq<Step>) {
    IsPath(Goes, states, steps) && states[0] == INITIAL
  }

  lemma RunInv(states: seq<State>, steps: seq<Step>, i: nat)
    requires IsRun(states, steps) && i < |states|
    ensures Inv(states[i])
  {
    forall s, step, t | Goes(s, step, t) && Inv(s) ensures Inv(t) { InvKept(s, step); }
    InvHolds(Goes, Inv, states, steps, i);
  }

  /** In every interleaving: what the hook produced is what was delivered, given up, held and
      still queued, in this order; nothing is given up unless the context was cancelled. */
  lemma NothingLostOrReordered(states: seq<State>, steps: seq<Step>, i: nat)
    requires IsRun(states, steps) && i < |states|
    ensures var s := states[i];
      && s.enqueued == s.sent + s.lost + Held(s.pc) + s.source
      && (!s.cancelled ==> s.lost == [])
  {
    RunInv(states, steps, i);
  }

  /** In every interleaving: once WaitDrained has returned nil, having returned before any
      cancellation, all effects produced before the call are in the sink, in order. */
  lemma WaitDrainedDelivers(states: seq<State>, steps: seq<Step>, i: nat, w: nat)
    requires IsRun(states, steps) && i < |states|
    requires At(states[i], w, Returned(true, true))
    ensures var s := states[i]; var mark := s.waiters[w].mark;
      mark <= |s.sent| && mark <= |s.enqueued| && s.sent[..mark] == s.enqueued[..mark]
  {
    RunInv(states, steps, i);
    var s := states[i];
    assert s.sent <= s.enqueued;
  }

  // ----- why the barrier and the absence of cancellation matter -----

  lemma Go(s: State, step: Step) returns (t: State)
    requires Leads(Goes, INITIAL, s) && Enabled(s, step)
    ensures t == Do(s, step) && Leads(Goes, INITIAL, t)
  {
    t := Do(s, step);
    GoOn(Goes, INITIAL, s, step, t);
  }

  /** Between taking an effect and counting it, the goroutine looks drained: both reads before
      the barrier succeed although nothing has been delivered. */
  lemma ReadsAloneAreNotEnough() returns (s: State)
    ensures Leads(Goes, INITIAL, s)
    ensures At(s, 0, Offering(0)) && !s.cancelled
    ensures s.source == [] && s.inFlight == 0
    ensures |s.sent| == 0 < s.waiters[0].mark
  {
    Stay(Goes, INITIAL);
    s := Go(INITIAL, Enqueue(Effect(0, 0, 0)));
    s := Go(s, Call(0));
    s := Go(s, Receive);
    s := Go(s, LookLen(0));
    s := Go(s, LookCount(0));
  }

  lemma CancelledBeforeDelivery() returns (s: State)
    ensures Leads(Goes, INITIAL, s)
    ensures s.pc == Exited && s.cancelled && s.inFlight == 0 && |s.source| == 1 && s.sent == []
    ensures 0 in s.waiters && s.waiters[0] == Waiter(ReadLen, 1)
  {
    Stay(Goes, INITIAL);
    s := Go(INITIAL, Enqueue(Effect(0, 0, 0)));
    s := Go(s, Call(0));
    s := Go(s, Cancel);
    s := Go(s, SeeCancelled);
    s := Go(s, CloseDone);
  }

  /** When the context was cancelled before the return, nil promises nothing. */
  lemma CancelledWaitMayLose() returns (s: State)
    ensures Leads(Goes, INITIAL, s)
    ensures At(s, 0, Returned(true, false)) && |s.sent| == 0 < s.waiters[0].mark
  {
    s := CancelledBeforeDelivery();
    s := Go(s, LookLen(0));
    s := Go(s, PollDone(0));
    s := Go(s, AfterPollDone(0));
  }
}
