/** The whole delivery path: several hooks with their forwarders, one recorder, and request
    handlers that open a scope, flush the hook group and finish the scope. Every step is a
    step of a forwarder, of the recorder, of both at once (a send), or of a handler. */
module Pipeline {
  import opened Effects
  import opened Attribution
  import opened Runs
  import F = Forwarder
  import R = Recorder

  /** Where the handler of one request stands. */
  datatype Stage =
    | Opening                       // scope ID drawn
    | Serving                       // scope open, request being served
    | Flushing(hook: nat)           // about to wait for, or waiting for, this forwarder
    | Flushed
    | Finishing
    | Done(clean: bool)             // clean: no forwarder was cancelled when the scope was read

  /** marks[f] is the number of effects hook f had produced when the wait on its forwarder
      began; flushOk is whether every part of the flush so far returned nil. */
  datatype Handler = Handler(stage: Stage, scope: nat, flushOk: bool, marks: seq<nat>)

  datatype State = State(fs: seq<F.State>, r: R.State, hs: map<nat, Handler>)

  ghost predicate Initial(s: State) {
    && (forall f :: 0 <= f < |s.fs| ==> s.fs[f] == F.INITIAL)
    && s.r == R.INITIAL && s.hs == map[]
  }

  datatype Step =
    | InForwarder(f: nat, fs: F.Step)
    | Forward(f: nat)
    | InRecorder(rs: R.Step)
    | Open(p: nat, startedAt: int)
    | Opened(p: nat)
    | HooksFlushed(p: nat, ok: bool)
    | NoFlush(p: nat)
    | Wait(p: nat)
    | Waited(p: nat)
    | Finish(p: nat, recordedAt: int)

  ghost predicate At(s: State, p: nat, stage: Stage) {
    p in s.hs && s.hs[p].stage == stage
  }

  ghost predicate FlushingAt(s: State, p: nat) {
    p in s.hs && s.hs[p].stage.Flushing? && s.hs[p].stage.hook < |s.fs|
  }

  ghost predicate Enabled(s: State, step: Step) {
    match step
    case InForwarder(f, fs) =>
      f < |s.fs| && !fs.Send? && !fs.Call? && F.Enabled(s.fs[f], fs)
      && (fs.Enqueue? ==> fs.e.hook == f && fs.e.number == |s.fs[f].enqueued|)
    case Forward(f) =>
      f < |s.fs| && F.Enabled(s.fs[f], F.Send) && R.Enabled(s.r, R.Arrive(s.fs[f].pc.e))
    case InRecorder(rs) =>
      !rs.Arrive? && !rs.DrawID? && !rs.Enter? && R.Enabled(s.r, rs) && (rs.Finish? ==> rs.q !in s.hs)
    case Open(p, startedAt) => p !in s.hs && p !in s.r.finishers && R.Enabled(s.r, R.DrawID(startedAt))
    case Opened(p) => At(s, p, Opening) && R.Enabled(s.r, R.Enter(s.hs[p].scope))
    case HooksFlushed(p, _) => At(s, p, Serving)
    case NoFlush(p) => At(s, p, Serving)
    case Wait(p) =>
      FlushingAt(s, p) && |s.hs[p].marks| == s.hs[p].stage.hook
      && F.Enabled(s.fs[s.hs[p].stage.hook], F.Call(p))
    case Waited(p) =>
      FlushingAt(s, p) && |s.hs[p].marks| == s.hs[p].stage.hook + 1
      && p in s.fs[s.hs[p].stage.hook].waiters && s.fs[s.hs[p].stage.hook].waiters[p].pc.Returned?
    case Finish(p, recordedAt) =>
      At(s, p, Flushed) && R.Enabled(s.r, R.Finish(p, s.hs[p].scope, recordedAt))
  }

  /** The stage after the wait on forwarder f - 1 of n. */
  ghost function NextWait(f: nat, n: nat): Stage {
    if f < n then Flushing(f) else Flushed
  }

  ghost predicate NoneCancelled(s: State) {
    forall f :: 0 <= f < |s.fs| ==> !s.fs[f].cancelled
  }

  ghost function Do(s: State, step: Step): State
    requires Enabled(s, step)
  {
    match step
    case InForwarder(f, fs) => s.(fs := s.fs[f := F.Do(s.fs[f], fs)])
    case Forward(f) =>
      s.(fs := s.fs[f := F.Do(s.fs[f], F.Send)], r := R.Do(s.r, R.Arrive(s.fs[f].pc.e)))
    case InRecorder(rs) =>
      s.(r := R.Do(s.r, rs),
         hs := if rs.Take? && rs.q in s.hs then s.hs[rs.q := s.hs[rs.q].(stage := Done(NoneCancelled(s)))] else s.hs)
    case Open(p, startedAt) =>
      s.(r := R.Do(s.r, R.DrawID(startedAt)), hs := s.hs[p := Handler(Opening, s.r.nextID + 1, false, [])])
    case Opened(p) =>
      s.(r := R.Do(s.r, R.Enter(s.hs[p].scope)), hs := s.hs[p := s.hs[p].(stage := Serving)])
    case HooksFlushed(p, ok) =>
      s.(hs := s.hs[p := s.hs[p].(stage := NextWait(0, |s.fs|), flushOk := ok)])
    case NoFlush(p) => s.(hs := s.hs[p := s.hs[p].(stage := Flushed)])
    case Wait(p) =>
      var f := s.hs[p].stage.hook;
      s.(fs := s.fs[f := F.Do(s.fs[f], F.Call(p))],
         hs := s.hs[p := s.hs[p].(marks := s.hs[p].marks + [|s.fs[f].enqueued|])])
    case Waited(p) =>
      var f := s.hs[p].stage.hook;
      var ok := s.fs[f].waiters[p].pc.ok;
      s.(hs := s.hs[p := s.hs[p].(stage := NextWait(f + 1, |s.fs|), flushOk := s.hs[p].flushOk && ok)])
    case Finish(p, recordedAt) =>
      s.(r := R.Do(s.r, R.Finish(p, s.hs[p].scope, recordedAt)), hs := s.hs[p := s.hs[p].(stage := Finishing)])
  }

  // ----- the components keep their own invariants -----

  ghost predicate Parts(s: State) {
    && (forall f :: 0 <= f < |s.fs| ==> F.Inv(s.fs[f]))
    && R.Inv(s.r)
  }

  lemma PartsKept(s: State, step: Step)
    requires Parts(s) && Enabled(s, step)
    ensures Parts(Do(s, step))
  {
    match step
    case InForwarder(f, fs) => F.InvKept(s.fs[f], fs);
    case Forward(f) => F.InvKept(s.fs[f], F.Send); R.InvKept(s.r, R.Arrive(s.fs[f].pc.e));
    case InRecorder(rs) => R.InvKept(s.r, rs);
    case Open(_, startedAt) => R.InvKept(s.r, R.DrawID(startedAt));
    case Opened(p) => R.InvKept(s.r, R.Enter(s.hs[p].scope));
    case HooksFlushed(_, _) =>
    case NoFlush(_) =>
    case Wait(p) => F.InvKept(s.fs[s.hs[p].stage.hook], F.Call(p));
    case Waited(_) =>
    case Finish(p, recordedAt) => R.InvKept(s.r, R.Finish(p, s.hs[p].scope, recordedAt));
  }

  // ----- delivery is faithful to the hooks -----

  /** The delivered effects of one hook, in order. */
  ghost function OfHook(es: seq<Effect>, f: nat): seq<Effect> {
    if es == [] then [] else
      var last := es[|es| - 1];
      OfHook(es[..|es| - 1], f) + if last.hook == f then [last] else []
  }

  ghost predicate Numbered(s: State) {
    forall f, k :: 0 <= f < |s.fs| && 0 <= k < |s.fs[f].enqueued| ==>
      s.fs[f].enqueued[k].hook == f && s.fs[f].enqueued[k].number == k
  }

  ghost predicate Merged(s: State) {
    && (forall f :: 0 <= f < |s.fs| ==> OfHook(s.r.delivered, f) == s.fs[f].sent)
    && (forall e :: e in s.r.delivered ==> e.hook < |s.fs|)
  }

  lemma {:induction false} OfHookAppend(es: seq<Effect>, e: Effect, f: nat)
    ensures OfHook(es + [e], f) == OfHook(es, f) + if e.hook == f then [e] else []
  {
    assert (es + [e])[..|es|] == es;
  }

  lemma {:induction false} OfHookMember(es: seq<Effect>, f: nat, e: Effect)
    requires e in OfHook(es, f)
    ensures e in es && e.hook == f
  {
    if e in OfHook(es[..|es| - 1], f) { OfHookMember(es[..|es| - 1], f, e); }
  }

  lemma SendingIsProduced(s: F.State)
    requires F.Inv(s) && s.pc.Sending?
    ensures s.lost == [] && |s.sent| < |s.enqueued| && s.enqueued[|s.sent|] == s.pc.e
  {
  }

  /** What a step does to the history of forwarder f. */
  lemma ForwarderGrows(s: State, step: Step, f: nat)
    requires Enabled(s, step) && f < |s.fs|
    ensures var t := Do(s, step);
      && |t.fs| == |s.fs|
      && t.fs[f].enqueued == s.fs[f].enqueued + Produced(s, step, f)
      && t.fs[f].sent == s.fs[f].sent + (if step == Forward(f) then [s.fs[f].pc.e] else [])
      && (s.fs[f].cancelled ==> t.fs[f].cancelled)
  {
    match step
    case InForwarder(g, fs) => F.HistoryGrows(s.fs[g], fs);
    case Forward(g) => F.HistoryGrows(s.fs[g], F.Send);
    case Wait(p) => F.HistoryGrows(s.fs[s.hs[p].stage.hook], F.Call(p));
    case _ =>
  }

  ghost function Produced(s: State, step: Step, f: nat): seq<Effect> {
    if step.InForwarder? && step.f == f && step.fs.Enqueue? then [step.fs.e] else []
  }

  /** What a step does to the history of the recorder. */
  lemma RecorderGrows(s: State, step: Step)
    requires Enabled(s, step)
    ensures var t := Do(s, step);
      && t.r.delivered == s.r.delivered + (if step.Forward? then [s.fs[step.f].pc.e] else [])
      && s.r.log <= t.r.log
  {
    match step
    case Forward(f) => R.HistoryGrows(s.r, R.Arrive(s.fs[f].pc.e));
    case InRecorder(rs) => R.HistoryGrows(s.r, rs);
    case Open(_, startedAt) => R.HistoryGrows(s.r, R.DrawID(startedAt));
    case Opened(p) => R.HistoryGrows(s.r, R.Enter(s.hs[p].scope));
    case Finish(p, recordedAt) => R.HistoryGrows(s.r, R.Finish(p, s.hs[p].scope, recordedAt));
    case _ =>
  }

  lemma NumberedKept(s: State, step: Step)
    requires Numbered(s) && Enabled(s, step)
    ensures Numbered(Do(s, step))
  {
    var t := Do(s, step);
    forall f, k | 0 <= f < |t.fs| && 0 <= k < |t.fs[f].enqueued|
      ensures t.fs[f].enqueued[k].hook == f && t.fs[f].enqueued[k].number == k
    {
      ForwarderGrows(s, step, f);
      if k < |s.fs[f].enqueued| { assert t.fs[f].enqueued[k] == s.fs[f].enqueued[k]; }
    }
  }

  lemma MergedKept(s: State, step: Step)
    requires Parts(s) && Numbered(s) && Merged(s) && Enabled(s, step)
    ensures Merged(Do(s, step))
  {
    var t := Do(s, step);
    RecorderGrows(s, step);
    assert |t.fs| == |s.fs|;
    if step.Forward? { SendingIsProduced(s.fs[step.f]); }
    forall f | 0 <= f < |s.fs| ensures OfHook(t.r.delivered, f) == t.fs[f].sent {
      ForwarderGrows(s, step, f);
      if step.Forward? {
        MergedSend(s, step.f, f);
      } else {
        assert t.fs[f].sent == s.fs[f].sent && t.r.delivered == s.r.delivered;
      }
    }
  }

  lemma MergedSend(s: State, g: nat, f: nat)
    requires Parts(s) && Numbered(s) && Merged(s) && Enabled(s, Forward(g)) && f < |s.fs|
    ensures OfHook(s.r.delivered + [s.fs[g].pc.e], f) == s.fs[f].sent + if f == g then [s.fs[g].pc.e] else []
  {
    SendingIsProduced(s.fs[g]);
    OfHookAppend(s.r.delivered, s.fs[g].pc.e, f);
  }

  ghost predicate Distinct(es: seq<Effect>) {
    forall i, j :: 0 <= i < j < |es| ==> es[i] != es[j]
  }

  lemma {:induction false} InOfHook(es: seq<Effect>, e: Effect)
    requires e in es
    ensures e in OfHook(es, e.hook)
  {
    if e != es[|es| - 1] {
      assert e in es[..|es| - 1];
      InOfHook(es[..|es| - 1], e);
    }
  }

  /** Streams that are duplicate-free hook by hook merge into a duplicate-free one. */
  lemma {:induction false} MergeIsDistinct(es: seq<Effect>)
    requires forall f: nat :: Distinct(OfHook(es, f))
    ensures Distinct(es)
  {
    if es != [] {
      var front, last := es[..|es| - 1], es[|es| - 1];
      assert es == front + [last];
      forall f: nat ensures Distinct(OfHook(front, f)) {
        OfHookAppend(front, last, f);
        assert OfHook(front, f) <= OfHook(es, f);
        assert Distinct(OfHook(es, f));
      }
      MergeIsDistinct(front);
      if last in front {
        InOfHook(front, last);
        OfHookAppend(front, last, last.hook);
        var own := OfHook(es, last.hook);
        assert Distinct(own);
        var x :| 0 <= x < |OfHook(front, last.hook)| && OfHook(front, last.hook)[x] == last;
        assert own[x] == last && own[|own| - 1] == last;
      }
    }
  }

  lemma {:induction false} NoneOfHook(es: seq<Effect>, f: nat)
    requires forall e :: e in es ==> e.hook != f
    ensures OfHook(es, f) == []
  {
    if es != [] { NoneOfHook(es[..|es| - 1], f); }
  }

  /** No effect reaches the recorder twice. */
  lemma DeliveredOnce(s: State)
    requires Parts(s) && Numbered(s) && Merged(s)
    ensures Distinct(s.r.delivered)
  {
    forall f: nat ensures Distinct(OfHook(s.r.delivered, f)) {
      if f < |s.fs| {
        assert F.Inv(s.fs[f]);
        assert s.fs[f].sent <= s.fs[f].enqueued;
      } else {
        NoneOfHook(s.r.delivered, f);
      }
    }
    MergeIsDistinct(s.r.delivered);
  }

  // ----- what a handler knows -----

  /** The wait on forwarder f has made sure that what the handler counted is in the recorder. */
  ghost predicate Secured(fs: seq<F.State>, marks: seq<nat>, f: nat)
    requires f < |fs| && f < |marks|
  {
    fs[f].cancelled || marks[f] <= |fs[f].sent|
  }

  /** Everything the handler counted is among the first mark effects of the recorder. */
  ghost predicate Counted(fs: seq<F.State>, marks: seq<nat>, es: seq<Effect>) {
    forall f: nat, k: nat :: f < |fs| && f < |marks| && k < marks[f] && !fs[f].cancelled ==> Produces(fs, f, k, es)
  }

  ghost predicate Produces(fs: seq<F.State>, f: nat, k: nat, es: seq<Effect>)
    requires f < |fs|
  {
    k < |fs[f].enqueued| && fs[f].enqueued[k] in es
  }

  ghost predicate MarksBounded(fs: seq<F.State>, marks: seq<nat>) {
    forall f :: 0 <= f < |marks| ==> f < |fs| && marks[f] <= |fs[f].enqueued|
  }

  ghost predicate InFlush(s: State, p: nat, h: Handler)
    requires h.stage.Flushing? && MarksBounded(s.fs, h.marks)
  {
    var f := h.stage.hook;
    && f < |s.fs| && f <= |h.marks| <= f + 1
    && (|h.marks| == f + 1 ==> p in s.fs[f].waiters && s.fs[f].waiters[p].mark == h.marks[f])
    && (h.flushOk ==> forall g :: 0 <= g < f ==> Secured(s.fs, h.marks, g))
  }

  ghost predicate AllSecured(s: State, h: Handler)
    requires MarksBounded(s.fs, h.marks)
  {
    h.flushOk ==> |h.marks| == |s.fs| && forall g :: 0 <= g < |s.fs| ==> Secured(s.fs, h.marks, g)
  }

  /** What the finishing call of a handler has achieved. */
  ghost predicate InFinish(s: State, p: nat, h: Handler)
    requires MarksBounded(s.fs, h.marks)
  {
    && AllSecured(s, h)
    && p in s.r.finishers
    && s.r.finishers[p].scope == h.scope
    && (h.flushOk && (s.r.finishers[p].pc.Awaiting? || s.r.finishers[p].pc == R.Taking(true)) ==>
          s.r.finishers[p].mark <= |s.r.delivered| && Counted(s.fs, h.marks, s.r.delivered[..s.r.finishers[p].mark]))
  }

  ghost predicate HandlerOk(s: State, p: nat)
    requires p in s.hs
  {
    var h := s.hs[p];
    && MarksBounded(s.fs, h.marks)
    && (!h.stage.Finishing? && !h.stage.Done? ==> p !in s.r.finishers)
    && (match h.stage
        case Opening => h.marks == [] && !h.flushOk
        case Serving => h.marks == [] && !h.flushOk
        case Flushing(_) => InFlush(s, p, h)
        case Flushed => AllSecured(s, h)
        case Finishing => InFinish(s, p, h)
        case Done(_) => p in s.r.finishers && s.r.finishers[p].scope == h.scope && (h.flushOk ==> |h.marks| == |s.fs|)
                          && (s.r.finishers[p].pc.Handed? || s.r.finishers[p].pc.Failed?))
  }

  ghost predicate Handlers(s: State) {
    forall p :: p in s.hs ==> HandlerOk(s, p)
  }

  /** What a record of a handler's scope rests on. */
  ghost predicate RecordOk(s: State, r: R.Record) {
    r.finisher in s.r.finishers &&
    (r.finisher in s.hs ==>
      var h := s.hs[r.finisher];
      && h.stage.Done? && h.scope == r.scope
      && r.until <= |s.r.log|
      && (NoneCancelled(s) ==> h.stage.clean)
      && (h.flushOk && h.stage.clean && r.flushed ==>
            Settled(s.fs, h.marks, R.EffectsOf(s.r.log[..r.until]))))
  }

  ghost predicate Records(s: State) {
    forall r :: r in s.r.records ==> RecordOk(s, r)
  }

  ghost predicate Inv(s: State) {
    Parts(s) && Numbered(s) && Merged(s) && Handlers(s) && Records(s)
  }

  // ----- steps elsewhere leave a handler's knowledge alone -----

  ghost predicate Extends(s: State, t: State) {
    && |t.fs| == |s.fs|
    && (forall f :: 0 <= f < |s.fs| ==>
          && s.fs[f].enqueued <= t.fs[f].enqueued
          && s.fs[f].sent <= t.fs[f].sent
          && (s.fs[f].cancelled ==> t.fs[f].cancelled))
    && s.r.delivered <= t.r.delivered
    && s.r.log <= t.r.log
  }

  lemma StepExtends(s: State, step: Step)
    requires Enabled(s, step)
    ensures Extends(s, Do(s, step))
  {
    RecorderGrows(s, step);
    forall f | 0 <= f < |s.fs|
      ensures |Do(s, step).fs| == |s.fs| && s.fs[f].enqueued <= Do(s, step).fs[f].enqueued
        && s.fs[f].sent <= Do(s, step).fs[f].sent && (s.fs[f].cancelled ==> Do(s, step).fs[f].cancelled)
    {
      ForwarderGrows(s, step, f);
    }
    assert |Do(s, step).fs| == |s.fs|;
  }

  lemma CountedExtends(s: State, t: State, h: Handler, es: seq<Effect>)
    requires Extends(s, t) && Counted(s.fs, h.marks, es)
    ensures Counted(t.fs, h.marks, es)
  {
    forall f: nat, k: nat | f < |t.fs| && f < |h.marks| && k < h.marks[f] && !t.fs[f].cancelled
      ensures Produces(t.fs, f, k, es)
    {
      assert Produces(s.fs, f, k, es);
      assert t.fs[f].enqueued[k] == s.fs[f].enqueued[k];
    }
  }

  lemma MarksExtend(s: State, t: State, h: Handler)
    requires Extends(s, t) && MarksBounded(s.fs, h.marks)
    ensures MarksBounded(t.fs, h.marks)
    ensures forall f :: 0 <= f < |h.marks| && f < |s.fs| && Secured(s.fs, h.marks, f) ==> Secured(t.fs, h.marks, f)
  {
    forall f | 0 <= f < |h.marks|
      ensures f < |t.fs| && h.marks[f] <= |t.fs[f].enqueued|
      ensures f < |s.fs| && (Secured(s.fs, h.marks, f) ==> Secured(t.fs, h.marks, f))
    {
      assert h.marks[f] >= 0 && f < |s.fs|;
      assert s.fs[f].enqueued <= t.fs[f].enqueued && s.fs[f].sent <= t.fs[f].sent;
    }
  }

  /** The finishing call of p stands where it stood, or moved without new knowledge. */
  ghost predicate SameFinish(s: State, t: State, p: nat) {
    && (p in t.r.finishers <==> p in s.r.finishers)
    && (p in s.r.finishers ==>
          || t.r.finishers[p] == s.r.finishers[p]
          || (s.r.finishers[p].scope == t.r.finishers[p].scope && t.r.finishers[p].mark == s.r.finishers[p].mark
              && p in s.hs && s.hs[p].stage.Finishing? && MayMove(s.r.finishers[p].pc, t.r.finishers[p].pc)))
  }

  /** The moves of a finishing call that need no new knowledge. */
  ghost predicate MayMove(a: R.FinisherPc, b: R.FinisherPc) {
    (b.Awaiting? || b == R.Taking(true)) ==> (a.Awaiting? || a == R.Taking(true))
  }

  ghost predicate SameWaits(s: State, t: State, p: nat) {
    |t.fs| == |s.fs| && forall f :: 0 <= f < |s.fs| && p in s.fs[f].waiters ==>
      p in t.fs[f].waiters && t.fs[f].waiters[p].mark == s.fs[f].waiters[p].mark
  }

  lemma HandlerFrame(s: State, t: State, p: nat)
    requires Extends(s, t) && p in s.hs && p in t.hs && t.hs[p] == s.hs[p] && HandlerOk(s, p)
    requires SameFinish(s, t, p) && SameWaits(s, t, p)
    ensures HandlerOk(t, p)
  {
    var h := s.hs[p];
    MarksExtend(s, t, h);
    if h.stage.Finishing? {
      var fin := s.r.finishers[p];
      if h.flushOk && (fin.pc.Awaiting? || fin.pc == R.Taking(true)) {
        assert t.r.delivered[..fin.mark] == s.r.delivered[..fin.mark];
        CountedExtends(s, t, h, s.r.delivered[..fin.mark]);
      }
    }
  }

  // ----- a handler's own steps -----

  /** The handler that a step belongs to, if it is one of a handler's own steps. */
  ghost function Mover(s: State, step: Step): Option<nat> {
    match step
    case InRecorder(rs) =>
      if (rs.Mark? || rs.Handshake? || rs.SkipFlush? || rs.SeeFlushed? || rs.Take?) && rs.q in s.hs then Some(rs.q)
      else None
    case Open(p, _) => Some(p)
    case Opened(p) => Some(p)
    case HooksFlushed(p, _) => Some(p)
    case NoFlush(p) => Some(p)
    case Wait(p) => Some(p)
    case Waited(p) => Some(p)
    case Finish(p, _) => Some(p)
    case _ => None
  }

  lemma OthersStandStill(s: State, step: Step, p: nat)
    requires Enabled(s, step) && p in s.hs && Mover(s, step) != Some(p)
    ensures var t := Do(s, step);
      p in t.hs && t.hs[p] == s.hs[p] && SameFinish(s, t, p) && SameWaits(s, t, p)
  {
    match step
    case InForwarder(f, fs) => WaitersStay(s.fs[f], fs, p);
    case Forward(f) => WaitersStay(s.fs[f], F.Send, p); FinishersStay(s.r, R.Arrive(s.fs[f].pc.e), p);
    case InRecorder(rs) => FinishersStay(s.r, rs, p);
    case Open(q, startedAt) => FinishersStay(s.r, R.DrawID(startedAt), p);
    case Opened(q) => FinishersStay(s.r, R.Enter(s.hs[q].scope), p);
    case Wait(q) => WaitersStay(s.fs[s.hs[q].stage.hook], F.Call(q), p);
    case Finish(q, recordedAt) => FinishersStay(s.r, R.Finish(q, s.hs[q].scope, recordedAt), p);
    case _ =>
  }

  lemma WaitersStay(s: F.State, step: F.Step, p: nat)
    requires F.Enabled(s, step) && step != F.Call(p)
    ensures p in s.waiters ==> p in F.Do(s, step).waiters && F.Do(s, step).waiters[p].mark == s.waiters[p].mark
  {
  }

  lemma FinishersStay(s: R.State, step: R.Step, p: nat)
    requires R.Enabled(s, step) && !(R.TouchesFinishers(step) && step.q == p)
    ensures var t := R.Do(s, step);
      (p in t.finishers <==> p in s.finishers) && (p in s.finishers ==> t.finishers[p] == s.finishers[p])
  {
  }

  lemma OwnStepKept(s: State, step: Step)
    requires Inv(s) && Enabled(s, step) && Mover(s, step).Some?
    ensures var p := Mover(s, step).value; p in Do(s, step).hs && HandlerOk(Do(s, step), p)
  {
    var p := Mover(s, step).value;
    StepExtends(s, step);
    match step
    case InRecorder(rs) => FinishingStepKept(s, rs);
    case Open(_, startedAt) => FinishersStay(s.r, R.DrawID(startedAt), p);
    case Opened(_) => FinishersStay(s.r, R.Enter(s.hs[p].scope), p);
    case HooksFlushed(_, _) =>
    case NoFlush(_) =>
    case Wait(_) => WaitKept(s, p);
    case Waited(_) => WaitedKept(s, p);
    case Finish(_, recordedAt) => FinishKept(s, p, recordedAt);
  }

  lemma FinishKept(s: State, p: nat, recordedAt: int)
    requires Inv(s) && Enabled(s, Finish(p, recordedAt))
    ensures HandlerOk(Do(s, Finish(p, recordedAt)), p)
  {
    var t := Do(s, Finish(p, recordedAt));
    var h := s.hs[p];
    assert HandlerOk(s, p);
    assert t.fs == s.fs;
    if h.flushOk {
      forall g | 0 <= g < |t.fs| ensures Secured(t.fs, t.hs[p].marks, g) { assert Secured(s.fs, h.marks, g); }
    }
  }

  lemma WaitKept(s: State, p: nat)
    requires Inv(s) && Enabled(s, Wait(p))
    ensures HandlerOk(Do(s, Wait(p)), p)
  {
    var t := Do(s, Wait(p));
    var h, f := s.hs[p], s.hs[p].stage.hook;
    StepExtends(s, Wait(p));
    MarksExtend(s, t, h);
    assert t.hs[p].marks[..f] == h.marks;
    assert t.fs[f].enqueued == s.fs[f].enqueued;
    forall g | 0 <= g < |t.hs[p].marks| ensures g < |t.fs| && t.hs[p].marks[g] <= |t.fs[g].enqueued| {
      if g < f { assert h.marks[g] <= |t.fs[g].enqueued|; }
    }
    if h.flushOk {
      forall g | 0 <= g < f ensures Secured(t.fs, t.hs[p].marks, g) {
        assert Secured(s.fs, h.marks, g) && Secured(t.fs, h.marks, g);
      }
    }
  }

  lemma WaitedKept(s: State, p: nat)
    requires Inv(s) && Enabled(s, Waited(p))
    ensures HandlerOk(Do(s, Waited(p)), p)
  {
    var t := Do(s, Waited(p));
    var h, f := s.hs[p], s.hs[p].stage.hook;
    assert F.Inv(s.fs[f]);
    assert F.Covered(s.fs[f], s.fs[f].waiters[p]);
    if t.hs[p].flushOk {
      forall g | 0 <= g <= f ensures Secured(t.fs, t.hs[p].marks, g) {
        if g < f { assert Secured(s.fs, h.marks, g); }
      }
    }
  }

  lemma FinishingStepKept(s: State, rs: R.Step)
    requires Inv(s) && Enabled(s, InRecorder(rs)) && Mover(s, InRecorder(rs)).Some?
    ensures rs.q in Do(s, InRecorder(rs)).hs && HandlerOk(Do(s, InRecorder(rs)), rs.q)
  {
    var p := rs.q;
    assert HandlerOk(s, p) && p in s.r.finishers;
    assert s.hs[p].stage.Finishing?;
    if rs.Handshake? {
      HandshakeKept(s, p);
    } else if rs.Take? {
      TakeKept(s, p);
    } else {
      StepExtends(s, InRecorder(rs));
      FinisherMoves(s.r, rs);
      HandlerFrame(s, Do(s, InRecorder(rs)), p);
    }
  }

  lemma FinisherMoves(s: R.State, rs: R.Step)
    requires R.Enabled(s, rs) && (rs.Mark? || rs.SkipFlush? || rs.SeeFlushed?)
    ensures rs.q in s.finishers && rs.q in R.Do(s, rs).finishers
    ensures var a, b := s.finishers[rs.q], R.Do(s, rs).finishers[rs.q];
      a.scope == b.scope && a.mark == b.mark && MayMove(a.pc, b.pc)
  {
  }

  lemma TakeKept(s: State, p: nat)
    requires Inv(s) && Enabled(s, InRecorder(R.Take(p))) && At(s, p, Finishing)
    ensures HandlerOk(Do(s, InRecorder(R.Take(p))), p)
  {
    var t := Do(s, InRecorder(R.Take(p)));
    assert HandlerOk(s, p);
    assert t.fs == s.fs;
  }

  /** At the handshake everything the waits have secured is on record as delivered. */
  lemma HandshakeKept(s: State, p: nat)
    requires Inv(s) && Enabled(s, InRecorder(R.Handshake(p))) && At(s, p, Finishing)
    ensures HandlerOk(Do(s, InRecorder(R.Handshake(p))), p)
  {
    var t := Do(s, InRecorder(R.Handshake(p)));
    var h := s.hs[p];
    assert HandlerOk(s, p);
    StepExtends(s, InRecorder(R.Handshake(p)));
    MarksExtend(s, t, h);
    assert t.fs == s.fs && t.r.delivered == s.r.delivered;
    assert t.r.finishers[p].mark == |s.r.delivered| && t.r.delivered[..|s.r.delivered|] == s.r.delivered;
    if h.flushOk {
      forall f: nat, k: nat | f < |s.fs| && f < |h.marks| && k < h.marks[f] && !s.fs[f].cancelled
        ensures Produces(t.fs, f, k, s.r.delivered)
      {
        assert Secured(s.fs, h.marks, f) && F.Inv(s.fs[f]);
        assert s.fs[f].enqueued[k] == s.fs[f].sent[k];
        assert OfHook(s.r.delivered, f) == s.fs[f].sent;
        OfHookMember(s.r.delivered, f, s.fs[f].sent[k]);
      }
    }
  }

  lemma HandlersKept(s: State, step: Step)
    requires Inv(s) && Enabled(s, step)
    ensures Handlers(Do(s, step))
  {
    var t := Do(s, step);
    forall p | p in t.hs ensures HandlerOk(t, p) {
      if Mover(s, step) == Some(p) {
        OwnStepKept(s, step);
      } else {
        NoNewHandlers(s, step, p);
        OthersStandStill(s, step, p);
        StepExtends(s, step);
        HandlerFrame(s, t, p);
      }
    }
  }

  lemma NoNewHandlers(s: State, step: Step, p: nat)
    requires Enabled(s, step) && Mover(s, step) != Some(p)
    ensures p in Do(s, step).hs <==> p in s.hs
  {
  }

  // ----- records -----

  /** A handler that is done takes no further step of its own. */
  lemma DoneStandsStill(s: State, step: Step, p: nat)
    requires Enabled(s, step) && p in s.hs && HandlerOk(s, p) && s.hs[p].stage.Done?
    ensures Mover(s, step) != Some(p)
  {
  }

  lemma FinishersRemain(s: State, step: Step, p: nat)
    requires Enabled(s, step) && p in s.r.finishers
    ensures p in Do(s, step).r.finishers
    ensures p in Do(s, step).hs ==> p in s.hs
  {
    match step
    case Forward(f) => R.FinishersRemain(s.r, R.Arrive(s.fs[f].pc.e));
    case InRecorder(rs) => R.FinishersRemain(s.r, rs);
    case Open(_, startedAt) => R.FinishersRemain(s.r, R.DrawID(startedAt));
    case Opened(q) => R.FinishersRemain(s.r, R.Enter(s.hs[q].scope));
    case Finish(q, recordedAt) => R.FinishersRemain(s.r, R.Finish(q, s.hs[q].scope, recordedAt));
    case _ =>
  }

  lemma RecordFrame(s: State, step: Step, r: R.Record)
    requires Inv(s) && Enabled(s, step) && r in s.r.records
    ensures RecordOk(Do(s, step), r)
  {
    assert RecordOk(s, r);
    FinishersRemain(s, step, r.finisher);
    StepExtends(s, step);
    if r.finisher in s.hs {
      DoneStandsStill(s, step, r.finisher);
      OthersStandStill(s, step, r.finisher);
    }
    RecordStays(s, Do(s, step), r);
  }

  lemma RecordStays(s: State, t: State, r: R.Record)
    requires RecordOk(s, r) && Extends(s, t) && r.finisher in t.r.finishers
    requires r.finisher in t.hs ==> r.finisher in s.hs && t.hs[r.finisher] == s.hs[r.finisher]
    ensures RecordOk(t, r)
  {
    if r.finisher in t.hs {
      var h := s.hs[r.finisher];
      assert t.r.log[..r.until] == s.r.log[..r.until];
      if h.flushOk && h.stage.clean && r.flushed {
        SettledExtends(s, t, h, R.EffectsOf(s.r.log[..r.until]));
      }
    }
  }

  /** Everything the handler counted is among es. */
  ghost predicate Settled(fs: seq<F.State>, marks: seq<nat>, es: seq<Effect>) {
    forall f: nat, k: nat :: f < |fs| && f < |marks| && k < marks[f] ==> Produces(fs, f, k, es)
  }

  lemma SettledExtends(s: State, t: State, h: Handler, es: seq<Effect>)
    requires Extends(s, t) && Settled(s.fs, h.marks, es)
    ensures Settled(t.fs, h.marks, es)
  {
    forall f: nat, k: nat | f < |t.fs| && f < |h.marks| && k < h.marks[f] ensures Produces(t.fs, f, k, es) {
      assert Produces(s.fs, f, k, es);
      assert t.fs[f].enqueued[k] == s.fs[f].enqueued[k];
    }
  }

  ghost predicate TakesRecord(s: State, step: Step) {
    && step.InRecorder? && step.rs.Take? && R.Enabled(s.r, step.rs)
    && s.r.finishers[step.rs.q].scope in s.r.scopes
  }

  lemma RecordsGrowByTake(s: State, step: Step)
    requires Enabled(s, step)
    ensures Do(s, step).r.records ==
      s.r.records + if TakesRecord(s, step) then [R.TakeRecord(s.r, step.rs.q)] else []
  {
    match step
    case InRecorder(rs) => R.RecordsOnlyGrow(s.r, rs);
    case Forward(f) => R.RecordsOnlyGrow(s.r, R.Arrive(s.fs[f].pc.e));
    case Open(_, startedAt) => R.RecordsOnlyGrow(s.r, R.DrawID(startedAt));
    case Opened(p) => R.RecordsOnlyGrow(s.r, R.Enter(s.hs[p].scope));
    case Finish(p, recordedAt) => R.RecordsOnlyGrow(s.r, R.Finish(p, s.hs[p].scope, recordedAt));
    case _ =>
  }

  lemma NewRecordOk(s: State, q: nat)
    requires Inv(s) && Enabled(s, InRecorder(R.Take(q))) && s.r.finishers[q].scope in s.r.scopes
    ensures RecordOk(Do(s, InRecorder(R.Take(q))), R.TakeRecord(s.r, q))
  {
    TakenRecordOk(s, Do(s, InRecorder(R.Take(q))), q);
  }

  lemma TakenRecordOk(s: State, t: State, q: nat)
    requires Inv(s) && Enabled(s, InRecorder(R.Take(q))) && s.r.finishers[q].scope in s.r.scopes
    requires t.fs == s.fs && t.r.log == s.r.log && q in t.r.finishers
    requires q in t.hs ==> q in s.hs && t.hs[q] == s.hs[q].(stage := Done(NoneCancelled(s)))
    ensures RecordOk(t, R.TakeRecord(s.r, q))
  {
    assert t.r.log[..|s.r.log|] == s.r.log;
    if q in t.hs {
      var h := s.hs[q];
      assert HandlerOk(s, q) && h.stage.Finishing?;
      if h.flushOk && s.r.finishers[q].pc.flushed && NoneCancelled(s) {
        CountedIsSettled(s, h, q);
      }
    }
  }

  /** The two barriers meet: what was counted is in the recorder, and that has been handled. */
  lemma CountedIsSettled(s: State, h: Handler, q: nat)
    requires R.Inv(s.r) && NoneCancelled(s)
    requires q in s.r.finishers && s.r.finishers[q].pc == R.Taking(true)
    requires s.r.finishers[q].mark <= |s.r.delivered|
    requires Counted(s.fs, h.marks, s.r.delivered[..s.r.finishers[q].mark])
    ensures Settled(s.fs, h.marks, R.EffectsOf(s.r.log))
  {
    var fin, es := s.r.finishers[q], R.EffectsOf(s.r.log);
    assert R.Flushing(s.r, fin);
    assert s.r.delivered[..fin.mark] == es[..fin.mark];
    forall f: nat, k: nat | f < |s.fs| && f < |h.marks| && k < h.marks[f] ensures Produces(s.fs, f, k, es) {
      assert Produces(s.fs, f, k, s.r.delivered[..fin.mark]);
    }
  }

  lemma RecordsKept(s: State, step: Step)
    requires Inv(s) && Enabled(s, step)
    ensures Records(Do(s, step))
  {
    RecordsGrowByTake(s, step);
    forall r | r in Do(s, step).r.records ensures RecordOk(Do(s, step), r) {
      if r in s.r.records {
        RecordFrame(s, step, r);
      } else {
        NewRecordOk(s, step.rs.q);
      }
    }
  }

  lemma InvKept(s: State, step: Step)
    requires Inv(s) && Enabled(s, step)
    ensures Inv(Do(s, step))
  {
    PartsKept(s, step);
    NumberedKept(s, step);
    MergedKept(s, step);
    HandlersKept(s, step);
    RecordsKept(s, step);
  }

  // ----- runs -----

  ghost predicate Goes(s: State, step: Step, t: State) {
    Enabled(s, step) && t == Do(s, step)
  }

  ghost predicate IsRun(states: seq<State>, steps: seq<Step>) {
    IsPath(Goes, states, steps) && Initial(states[0])
  }

  lemma RunInv(states: seq<State>, steps: seq<Step>, i: nat)
    requires IsRun(states, steps) && i < |states|
    ensures Inv(states[i])
  {
    InitialInv(states[0]);
    forall s, step, t | Goes(s, step, t) && Inv(s) ensures Inv(t) { InvKept(s, step); }
    InvHolds(Goes, Inv, states, steps, i);
  }

  lemma InitialInv(s: State)
    requires Initial(s)
    ensures Inv(s)
  {
  }

  /** An effect at place j of the handled ones is settled for record r: it came before r's
      scope was open, or it lies outside the times of the scope, or it is in the record, or it
      went to a scope that started later, or at the same time and has a greater ID. */
  ghost predicate NotOrphaned(s: State, r: R.Record, e: Effect, j: nat) {
    && j < r.until && j < |s.r.log| && s.r.log[j].effect == e
    && (r.began <= j && Within(s, r, e) ==>
          && s.r.log[j].outcome.Assigned?
          && (if s.r.log[j].outcome.scope == r.scope then e in r.effects
              else
                var other := s.r.log[j].outcome;
                r.startedAt < other.startedAt || (r.startedAt == other.startedAt && r.scope < other.scope)))
  }

  /** Not before the start of r's scope, nor after a time at which a call closed it. */
  ghost predicate Within(s: State, r: R.Record, e: Effect) {
    && r.startedAt <= e.timestamp
    && forall c :: c in s.r.closings && c.0 == r.scope ==> e.timestamp <= c.1
  }

  lemma HandledIsNotOrphaned(s: State, r: R.Record, e: Effect)
    requires R.Inv(s.r) && r in s.r.records && r.until <= |s.r.log|
    requires e in R.EffectsOf(s.r.log[..r.until])
    ensures exists j :: NotOrphaned(s, r, e, j)
  {
    var x :| 0 <= x < |s.r.records| && s.r.records[x] == r;
    var j :| 0 <= j < r.until && R.EffectsOf(s.r.log[..r.until])[j] == e;
    if r.began <= j {
      assert R.Claimed(s.r.log[j], r.scope, r.startedAt, s.r.closings);
    }
    if s.r.log[j].outcome.Assigned? && s.r.log[j].outcome.scope == r.scope {
      R.InAssignedTo(s.r.log, r.scope, j);
    }
    assert NotOrphaned(s, r, e, j);
  }

  /** The whole path. Suppose every part of a handler's flush returned nil and, when its record
      was handed over, neither the recorder had been stopped nor a forwarder cancelled. Then
      every effect a hook had produced when the handler began to wait for that hook's forwarder
      had been handled before the record was made, and it is not orphaned. */
  lemma FlushedEffectsAreNotOrphaned(states: seq<State>, steps: seq<Step>, i: nat, r: R.Record, f: nat, k: nat)
    requires IsRun(states, steps) && i < |states|
    requires r in states[i].r.records && r.finisher in states[i].hs && f < |states[i].fs|
    requires r.flushed || !states[i].r.stopped
    requires states[i].hs[r.finisher].stage == Done(true) || NoneCancelled(states[i])
    requires states[i].hs[r.finisher].flushOk
    requires f < |states[i].hs[r.finisher].marks| ==> k < states[i].hs[r.finisher].marks[f]
    ensures f < |states[i].hs[r.finisher].marks| && k < |states[i].fs[f].enqueued|
    ensures exists j :: NotOrphaned(states[i], r, states[i].fs[f].enqueued[k], j)
  {
    RunInv(states, steps, i);
    MarkedIsNotOrphaned(states[i], r, f, k);
  }

  lemma MarkedIsNotOrphaned(s: State, r: R.Record, f: nat, k: nat)
    requires Inv(s) && r in s.r.records && r.finisher in s.hs && f < |s.fs|
    requires r.flushed || !s.r.stopped
    requires s.hs[r.finisher].stage == Done(true) || NoneCancelled(s)
    requires s.hs[r.finisher].flushOk
    requires f < |s.hs[r.finisher].marks| ==> k < s.hs[r.finisher].marks[f]
    ensures f < |s.hs[r.finisher].marks| && k < |s.fs[f].enqueued|
    ensures exists j :: NotOrphaned(s, r, s.fs[f].enqueued[k], j)
  {
    assert RecordOk(s, r) && HandlerOk(s, r.finisher);
    assert r.flushed by {
      var x :| 0 <= x < |s.r.records| && s.r.records[x] == r;
    }
    assert Produces(s.fs, f, k, R.EffectsOf(s.r.log[..r.until]));
    HandledIsNotOrphaned(s, r, s.fs[f].enqueued[k]);
  }

  /** In every interleaving no effect is handled, and so recorded or dropped, more than once. */
  lemma HandledAtMostOnce(states: seq<State>, steps: seq<Step>, i: nat, x: nat, y: nat)
    requires IsRun(states, steps) && i < |states|
    requires x < |states[i].r.log| && y < |states[i].r.log|
    requires states[i].r.log[x].effect == states[i].r.log[y].effect
    ensures x == y
  {
    RunInv(states, steps, i);
    var s := states[i];
    DeliveredOnce(s);
    assert s.r.delivered[x] == s.r.log[x].effect && s.r.delivered[y] == s.r.log[y].effect;
  }
}
