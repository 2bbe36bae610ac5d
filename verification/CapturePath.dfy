/** From bytes to records, as one machine: the hooks' connections read, forward and parse chunks
    and offer their effects to the hooks' channels; forwarders take them to the recorder; request
    handlers flush the hook group and finish their scopes. */
module CapturePath {
  import opened Effects
  import opened HookGroup
  import opened HookTraffic
  import opened Runs
  import F = Forwarder
  import H = FlushHandshake
  import P = Pipeline
  import R = Recorder

  /** A call of the group's Flush: how much each connection of each hook had read when it
      began, the hook it has come to, and what its parts have returned. */
  datatype Group = Group(seen: seq<map<nat, nat>>, i: nat, calling: bool, errors: seq<Error>)

  datatype State = State(p: P.State, hooks: seq<Hook>, groups: map<nat, Group>)

  ghost predicate Initial(s: State) {
    && P.Initial(s.p) && s.groups == map[] && |s.hooks| == |s.p.fs|
    && forall g :: 0 <= g < |s.hooks| ==> s.hooks[g] == Hook(H.INITIAL, map[], map[], [])
  }

  datatype Step =
    | InPath(ps: P.Step)
    | InHook(g: nat, hs: HookStep)
    | Emit(g: nat, c: nat, timestamp: int)
    | StartFlush(q: nat)
    | BeginHook(q: nat, conns: seq<nat>)
    | EndHook(q: nat, ok: bool)
    | HooksDone(q: nat)

  /** The handler is flushing the hooks. */
  ghost predicate Gathering(s: State, q: nat) {
    q in s.groups && P.At(s.p, q, P.Serving)
  }

  ghost predicate AtHook(s: State, q: nat) {
    Gathering(s, q) && s.groups[q].i < |s.hooks|
  }

  ghost predicate HasRoom(s: State, g: nat)
    requires g < |s.p.fs|
  {
    |s.p.fs[g].source| < F.CAPACITY
  }

  /** The steps that the delivery path takes by itself. */
  ghost predicate Independent(s: State, ps: P.Step) {
    match ps
    case InForwarder(g, fs) => !fs.Enqueue? && (fs.CloseSource? ==> g < |s.hooks| && AllEnded(s.hooks[g]))
    case HooksFlushed(_, _) => false
    case NoFlush(q) => q !in s.groups
    case _ => true
  }

  /** The steps that a hook takes by itself; no connection is accepted once it is stopped. */
  ghost predicate OfTraffic(s: State, g: nat, hs: HookStep)
    requires g < |s.p.fs|
  {
    match hs
    case Turn(step) =>
      !step.Begin? && !step.Cancel? && !step.Finish? && (step.Register? ==> !s.p.fs[g].closed)
    case Offer(_, _) => false
    case _ => true
  }

  ghost predicate Enabled(y: Yield, s: State, step: Step) {
    |s.hooks| == |s.p.fs| &&
    match step
    case InPath(ps) => Independent(s, ps) && P.Enabled(s.p, ps)
    case InHook(g, hs) => g < |s.hooks| && OfTraffic(s, g, hs) && HookEnabled(y, g, s.hooks[g], hs)
    case Emit(g, c, _) =>
      g < |s.hooks| && !s.p.fs[g].closed && HookEnabled(y, g, s.hooks[g], Offer(c, HasRoom(s, g)))
    case StartFlush(q) => P.At(s.p, q, P.Serving) && q !in s.groups
    case BeginHook(q, conns) =>
      AtHook(s, q) && !s.groups[q].calling && H.Enabled(s.hooks[s.groups[q].i].flush, H.Begin(q, conns))
    case EndHook(q, ok) =>
      AtHook(s, q) && s.groups[q].calling
      && HookEnabled(y, s.groups[q].i, s.hooks[s.groups[q].i], EndStep(q, ok))
    case HooksDone(q) => Gathering(s, q) && s.groups[q].i == |s.hooks|
  }

  /** What a part of the flush returns when its context is done. */
  function ErrorOf(ok: bool): Error {
    if ok then None else Some("context done")
  }

  ghost function ReadCounts(hook: Hook): map<nat, nat> {
    map c | c in hook.flush.conns :: hook.flush.conns[c].read
  }

  /** The wait of a handler, if it is over, has returned nil. */
  ghost predicate WaitedOk(s: P.State, q: nat) {
    P.FlushingAt(s, q) &&
    var waiters := s.fs[s.hs[q].stage.hook].waiters;
    q in waiters && waiters[q].pc.Returned? && waiters[q].pc.ok
  }

  ghost function Noted(s: P.State, q: nat, group: Group): Group {
    group.(errors := group.errors + [ErrorOf(WaitedOk(s, q))])
  }

  ghost function NoteWait(s: State, ps: P.Step): map<nat, Group> {
    if ps.Waited? && ps.p in s.groups then s.groups[ps.p := Noted(s.p, ps.p, s.groups[ps.p])] else s.groups
  }

  ghost function Do(y: Yield, s: State, step: Step): State
    requires Enabled(y, s, step) && AllSound(s)
  {
    match step
    case InPath(ps) => s.(p := P.Do(s.p, ps), groups := NoteWait(s, ps))
    case InHook(g, hs) => s.(hooks := s.hooks[g := HookDo(y, g, s.hooks[g], hs)])
    case Emit(g, c, timestamp) =>
      State(
        if HasRoom(s, g) then P.Do(s.p, Arrived(s, g, timestamp)) else s.p,
        s.hooks[g := HookDo(y, g, s.hooks[g], Offer(c, HasRoom(s, g)))],
        s.groups)
    case StartFlush(q) =>
      var seen := seq(|s.hooks|, g requires 0 <= g < |s.hooks| => ReadCounts(s.hooks[g]));
      s.(groups := s.groups[q := Group(seen, 0, false, [])])
    case BeginHook(q, conns) =>
      var i := s.groups[q].i;
      State(s.p, s.hooks[i := HookDo(y, i, s.hooks[i], Turn(H.Begin(q, conns)))], s.groups[q := Begun(s.groups[q])])
    case EndHook(q, ok) =>
      var i := s.groups[q].i;
      State(s.p, s.hooks[i := HookDo(y, i, s.hooks[i], EndStep(q, ok))], s.groups[q := Ended(s.groups[q], ok)])
    case HooksDone(q) =>
      s.(p := P.Do(s.p, P.HooksFlushed(q, FirstError(s.groups[q].errors) == None)))
  }

  ghost predicate AllSound(s: State) {
    forall g :: 0 <= g < |s.hooks| ==> Sound(s.hooks[g])
  }

  ghost predicate HooksOk(y: Yield, s: State) {
    forall g :: 0 <= g < |s.hooks| ==> HookInv(y, g, s.hooks[g])
  }

  lemma SoundHooks(y: Yield, s: State)
    requires HooksOk(y, s)
    ensures AllSound(s)
  {
    forall g | 0 <= g < |s.hooks| ensures Sound(s.hooks[g]) { assert HookInv(y, g, s.hooks[g]); }
  }

  // ----- the invariant -----

  /** Every effect in a hook's channel was offered by one of its connections. */
  ghost predicate Numbers(s: State) {
    |s.hooks| == |s.p.fs| && forall g :: 0 <= g < |s.hooks| ==> |s.hooks[g].origins| == |s.p.fs[g].enqueued|
  }

  /** A hook's channel is closed only after its connections have ended. */
  ghost predicate ClosedLast(s: State)
    requires |s.hooks| == |s.p.fs|
  {
    forall g :: 0 <= g < |s.hooks| && s.p.fs[g].closed ==> AllEnded(s.hooks[g])
  }

  /** While the hooks are flushed. */
  ghost predicate Gathers(hooks: seq<Hook>, q: nat, group: Group)
    requires |group.seen| == |hooks|
  {
    && |group.errors| == group.i <= |hooks|
    && (group.calling ==> group.i < |hooks| && InCall(hooks[group.i], q, group.seen[group.i]))
    && (FirstError(group.errors) == None ==>
          forall g :: 0 <= g < group.i ==> AllFed(hooks[g], group.seen[g]))
  }

  /** While the forwarders are waited for, and from then on. */
  ghost predicate Gathered(hooks: seq<Hook>, group: Group, h: P.Handler)
    requires |group.seen| == |hooks|
  {
    && |group.errors| == |hooks| + (if h.stage.Flushing? then h.stage.hook else |hooks|)
    && (h.flushOk <==> FirstError(group.errors) == None)
    && (h.flushOk ==>
          && (forall g :: 0 <= g < |hooks| ==> AllFed(hooks[g], group.seen[g]))
          && (forall g :: 0 <= g < |hooks| && g < |h.marks| ==> Caught(hooks[g], group.seen[g], h.marks[g])))
  }

  ghost predicate GroupOk(hooks: seq<Hook>, q: nat, group: Group, h: P.Handler) {
    && |group.seen| == |hooks|
    && (forall g :: 0 <= g < |hooks| ==> Known(hooks[g], group.seen[g]))
    && !h.stage.Opening?
    && (if h.stage.Serving? then Gathers(hooks, q, group) else Gathered(hooks, group, h))
  }

  ghost predicate Groups(s: State) {
    forall q :: q in s.groups ==> q in s.p.hs && GroupOk(s.hooks, q, s.groups[q], s.p.hs[q])
  }

  ghost predicate Inv(y: Yield, s: State) {
    Numbers(s) && P.Inv(s.p) && HooksOk(y, s) && ClosedLast(s) && Groups(s)
  }

  // ----- groups while hooks grow -----

  ghost predicate HooksGrow(a: seq<Hook>, b: seq<Hook>) {
    |a| == |b| && forall g :: 0 <= g < |a| ==> HookGrows(a[g], b[g])
  }

  lemma GrowOne(a: seq<Hook>, g: nat, hook: Hook)
    requires g < |a| && HookGrows(a[g], hook)
    ensures HooksGrow(a, a[g := hook])
  {
    forall k | 0 <= k < |a| ensures HookGrows(a[k], a[g := hook][k]) {
      if k != g { SelfGrows(a[k]); }
    }
  }

  lemma SelfGrows(a: Hook)
    ensures HookGrows(a, a)
  {
  }

  lemma GroupGrows(a: seq<Hook>, b: seq<Hook>, q: nat, group: Group, h: P.Handler)
    requires GroupOk(a, q, group, h) && HooksGrow(a, b)
    requires h.stage.Serving? && group.calling ==> SameCall(a[group.i].flush, b[group.i].flush, q)
    ensures GroupOk(b, q, group, h)
  {
    forall g | 0 <= g < |b| ensures Known(b[g], group.seen[g]) { KnownGrows(a[g], b[g], group.seen[g]); }
    if h.stage.Serving? {
      if group.calling { InCallGrows(a[group.i], b[group.i], q, group.seen[group.i]); }
      if FirstError(group.errors) == None {
        forall g | 0 <= g < group.i ensures AllFed(b[g], group.seen[g]) { AllFedGrows(a[g], b[g], group.seen[g]); }
      }
    } else if h.flushOk {
      forall g | 0 <= g < |b| ensures AllFed(b[g], group.seen[g]) { AllFedGrows(a[g], b[g], group.seen[g]); }
      forall g | 0 <= g < |b| && g < |h.marks| ensures Caught(b[g], group.seen[g], h.marks[g]) {
        CaughtGrows(a[g], b[g], group.seen[g], h.marks[g]);
      }
    }
  }

  // ----- steps of the delivery path -----

  /** A step that is neither a hook's nor the start of a handler's waits. */
  ghost predicate PathOnly(ps: P.Step) {
    !(ps.InForwarder? && ps.fs.Enqueue?) && !ps.HooksFlushed?
  }

  lemma PathLeavesChannels(s: P.State, ps: P.Step, g: nat)
    requires P.Enabled(s, ps) && PathOnly(ps) && g < |s.fs|
    ensures var t := P.Do(s, ps);
      && |t.fs| == |s.fs| && t.fs[g].enqueued == s.fs[g].enqueued
      && (t.fs[g].closed ==> s.fs[g].closed || ps == P.InForwarder(g, F.CloseSource))
  {
    P.ForwarderGrows(s, ps, g);
    match ps
    case InForwarder(k, fs) => ForwarderCloses(s.fs[k], fs);
    case Forward(k) => ForwarderCloses(s.fs[k], F.Send);
    case Wait(q) => ForwarderCloses(s.fs[s.hs[q].stage.hook], F.Call(q));
    case _ =>
  }

  lemma ForwarderCloses(s: F.State, fs: F.Step)
    requires F.Enabled(s, fs)
    ensures F.Do(s, fs).closed ==> s.closed || fs == F.CloseSource
  {
  }

  /** How a handler that has its scope open moves on, other than by flushing its hooks. */
  ghost predicate Moves(s: P.State, ps: P.Step, q: nat, h: P.Handler, k: P.Handler) {
    || k == h
    || (&& ps == P.Wait(q) && h.stage.Flushing? && |h.marks| < |s.fs|
        && k == h.(marks := h.marks + [|s.fs[|h.marks|].enqueued|]))
    || (&& ps == P.Waited(q) && h.stage.Flushing? && h.stage.hook < |s.fs|
        && k.stage == P.NextWait(h.stage.hook + 1, |s.fs|) && k.marks == h.marks
        && k.flushOk == (h.flushOk && WaitedOk(s, q)))
    || (&& (h.stage.Flushed? || h.stage.Finishing?) && (k.stage.Finishing? || k.stage.Done?)
        && !ps.Wait? && !ps.Waited? && k.marks == h.marks && k.flushOk == h.flushOk)
  }

  lemma HandlerMoves(s: P.State, ps: P.Step, q: nat)
    requires P.Inv(s) && P.Enabled(s, ps) && PathOnly(ps) && ps != P.NoFlush(q)
    requires q in s.hs && !s.hs[q].stage.Opening?
    ensures q in P.Do(s, ps).hs && Moves(s, ps, q, s.hs[q], P.Do(s, ps).hs[q])
  {
    if P.Mover(s, ps) != Some(q) {
      P.OthersStandStill(s, ps, q);
    } else {
      assert P.HandlerOk(s, q);
      match ps
      case InRecorder(rs) =>
      case Wait(_) =>
      case Waited(_) =>
      case Finish(_, _) =>
      case _ =>
    }
  }

  lemma GroupMoves(s: P.State, ps: P.Step, hooks: seq<Hook>, q: nat, group: Group, h: P.Handler, k: P.Handler)
    requires GroupOk(hooks, q, group, h) && Moves(s, ps, q, h, k) && |hooks| == |s.fs|
    requires forall g :: 0 <= g < |hooks| ==> Origins(hooks[g]) && |hooks[g].origins| == |s.fs[g].enqueued|
    requires ps == P.Waited(q) ==> k != h
    ensures GroupOk(hooks, q, if ps == P.Waited(q) then Noted(s, q, group) else group, k)
  {
    if ps == P.Waited(q) {
      NoErrorSnoc(group.errors, ErrorOf(WaitedOk(s, q)));
      MoreErrors(hooks, group, h, k, WaitedOk(s, q));
    } else if ps == P.Wait(q) && k != h {
      var g := |h.marks|;
      CaughtByNow(hooks[g], group.seen[g]);
      MoreMarks(hooks, group, h, |hooks[g].origins|);
    }
  }

  lemma MoreErrors(hooks: seq<Hook>, group: Group, h: P.Handler, k: P.Handler, ok: bool)
    requires |group.seen| == |hooks| && Gathered(hooks, group, h)
    requires k.marks == h.marks && k.flushOk == (h.flushOk && ok)
    requires h.stage.Flushing? && h.stage.hook < |hooks| && k.stage == P.NextWait(h.stage.hook + 1, |hooks|)
    requires FirstError(group.errors + [ErrorOf(ok)]) == None <==> FirstError(group.errors) == None && ok
    ensures Gathered(hooks, group.(errors := group.errors + [ErrorOf(ok)]), k)
  {
  }

  lemma MoreMarks(hooks: seq<Hook>, group: Group, h: P.Handler, mark: nat)
    requires |group.seen| == |hooks| && Gathered(hooks, group, h)
    requires |h.marks| < |hooks| && Caught(hooks[|h.marks|], group.seen[|h.marks|], mark)
    ensures Gathered(hooks, group, h.(marks := h.marks + [mark]))
  {
  }

  lemma WaitedMoves(s: P.State, q: nat)
    requires P.Enabled(s, P.Waited(q))
    ensures q in s.hs && P.Do(s, P.Waited(q)).hs[q] != s.hs[q]
  {
  }

  lemma GroupsMove(s: State, ps: P.Step, q: nat, k: P.Handler)
    requires Numbers(s) && Groups(s) && q in s.groups && Moves(s.p, ps, q, s.p.hs[q], k)
    requires ps == P.Waited(q) ==> k != s.p.hs[q]
    requires forall g :: 0 <= g < |s.hooks| ==> Origins(s.hooks[g])
    ensures GroupOk(s.hooks, q, NoteWait(s, ps)[q], k)
  {
    assert GroupOk(s.hooks, q, s.groups[q], s.p.hs[q]);
    GroupMoves(s.p, ps, s.hooks, q, s.groups[q], s.p.hs[q], k);
  }

  lemma HandlersMove(s: P.State, ps: P.Step, q: nat)
    requires P.Inv(s) && P.Enabled(s, ps) && PathOnly(ps) && ps != P.NoFlush(q)
    requires q in s.hs && !s.hs[q].stage.Opening?
    ensures q in P.Do(s, ps).hs && Moves(s, ps, q, s.hs[q], P.Do(s, ps).hs[q])
    ensures ps == P.Waited(q) ==> P.Do(s, ps).hs[q] != s.hs[q]
  {
    HandlerMoves(s, ps, q);
    if ps == P.Waited(q) { WaitedMoves(s, q); }
  }

  lemma PathKept(y: Yield, s: State, ps: P.Step)
    requires Inv(y, s) && Independent(s, ps) && P.Enabled(s.p, ps)
    ensures Inv(y, s.(p := P.Do(s.p, ps), groups := NoteWait(s, ps)))
  {
    P.InvKept(s.p, ps);
    PathLeavesSize(s.p, ps);
    PathLeaves(s, ps);
    PathMoves(s, ps);
    PathKeptTo(y, s, ps, P.Do(s.p, ps));
  }

  lemma PathLeaves(s: State, ps: P.Step)
    requires Numbers(s) && Independent(s, ps) && P.Enabled(s.p, ps)
    ensures |P.Do(s.p, ps).fs| == |s.p.fs|
    ensures forall g :: 0 <= g < |s.hooks| ==> Leaves(s, P.Do(s.p, ps), ps, g)
  {
    PathLeavesSize(s.p, ps);
    forall g | 0 <= g < |s.hooks| ensures Leaves(s, P.Do(s.p, ps), ps, g) { PathLeavesChannels(s.p, ps, g); }
  }

  lemma PathMoves(s: State, ps: P.Step)
    requires P.Inv(s.p) && Groups(s) && Independent(s, ps) && P.Enabled(s.p, ps)
    ensures var p := P.Do(s.p, ps);
      forall q :: q in s.groups ==> q in p.hs && Moved(s.p, ps, q, s.p.hs[q], p.hs[q])
  {
    forall q | q in s.groups
      ensures q in P.Do(s.p, ps).hs && Moved(s.p, ps, q, s.p.hs[q], P.Do(s.p, ps).hs[q])
    {
      assert GroupOk(s.hooks, q, s.groups[q], s.p.hs[q]);
      HandlersMove(s.p, ps, q);
    }
  }

  ghost predicate Moved(s: P.State, ps: P.Step, q: nat, h: P.Handler, k: P.Handler) {
    Moves(s, ps, q, h, k) && (ps == P.Waited(q) ==> k != h)
  }

  ghost predicate Leaves(s: State, p: P.State, ps: P.Step, g: nat)
    requires |s.hooks| == |s.p.fs| == |p.fs| && g < |s.hooks|
  {
    && |p.fs[g].enqueued| == |s.p.fs[g].enqueued|
    && (p.fs[g].closed ==> s.p.fs[g].closed || ps == P.InForwarder(g, F.CloseSource))
  }

  lemma PathKeptTo(y: Yield, s: State, ps: P.Step, p: P.State)
    requires Inv(y, s) && Independent(s, ps) && P.Inv(p) && |p.fs| == |s.p.fs|
    requires forall g :: 0 <= g < |s.hooks| ==> Leaves(s, p, ps, g)
    requires forall q :: q in s.groups ==> q in p.hs && Moved(s.p, ps, q, s.p.hs[q], p.hs[q])
    ensures Inv(y, s.(p := p, groups := NoteWait(s, ps)))
  {
    forall g | 0 <= g < |s.hooks| ensures Origins(s.hooks[g]) { assert HookInv(y, g, s.hooks[g]); }
    forall g | 0 <= g < |s.hooks|
      ensures |s.hooks[g].origins| == |p.fs[g].enqueued| && (p.fs[g].closed ==> AllEnded(s.hooks[g]))
    {
      assert Leaves(s, p, ps, g);
    }
    forall q | q in s.groups ensures GroupOk(s.hooks, q, NoteWait(s, ps)[q], p.hs[q]) {
      GroupsMove(s, ps, q, p.hs[q]);
    }
  }

  lemma PathLeavesSize(s: P.State, ps: P.Step)
    requires P.Enabled(s, ps)
    ensures |P.Do(s, ps).fs| == |s.fs|
  {
  }

  // ----- steps of a hook -----

  /** A call of Flush that the group of q has under way at hook g goes on. */
  ghost predicate CallGoesOn(s: State, g: nat, hook: Hook, q: nat) {
    q in s.groups && q in s.p.hs &&
    (s.p.hs[q].stage.Serving? && s.groups[q].calling && s.groups[q].i == g && g < |s.hooks| ==>
      SameCall(s.hooks[g].flush, hook.flush, q))
  }

  /** Every channel is as it was, but for effects of hook g. */
  ghost predicate Channels(s: State, p: P.State, g: nat, hook: Hook) {
    && |p.fs| == |s.p.fs| == |s.hooks| && g < |s.hooks| && |hook.origins| == |p.fs[g].enqueued|
    && (p.fs[g].closed ==> AllEnded(hook))
    && forall k :: 0 <= k < |p.fs| && k != g ==>
         |p.fs[k].enqueued| == |s.p.fs[k].enqueued| && p.fs[k].closed == s.p.fs[k].closed
  }

  ghost predicate GroupFits(s: State, p: P.State, g: nat, hook: Hook, group: Group, q: nat)
    requires g < |s.hooks|
  {
    || (q in s.groups && group == s.groups[q] && CallGoesOn(s, g, hook, q))
    || (q in p.hs && GroupOk(s.hooks[g := hook], q, group, p.hs[q]))
  }

  lemma GroupReplaced(s: State, p: P.State, g: nat, hook: Hook, group: Group, q: nat)
    requires g < |s.hooks| && Groups(s) && p.hs == s.p.hs && HooksGrow(s.hooks, s.hooks[g := hook])
    requires GroupFits(s, p, g, hook, group, q)
    ensures q in p.hs && GroupOk(s.hooks[g := hook], q, group, p.hs[q])
  {
    if q in s.groups && group == s.groups[q] && CallGoesOn(s, g, hook, q) {
      assert GroupOk(s.hooks, q, group, p.hs[q]);
      GroupGrows(s.hooks, s.hooks[g := hook], q, group, p.hs[q]);
    }
  }

  lemma ReplaceHook(y: Yield, s: State, p: P.State, g: nat, hook: Hook, groups: map<nat, Group>)
    requires Inv(y, s) && P.Inv(p) && p.hs == s.p.hs && Channels(s, p, g, hook)
    requires HookInv(y, g, hook) && HookGrows(s.hooks[g], hook)
    requires forall q :: q in groups ==> GroupFits(s, p, g, hook, groups[q], q)
    ensures Inv(y, State(p, s.hooks[g := hook], groups))
  {
    HooksReplaced(y, s, p, g, hook);
    GrowOne(s.hooks, g, hook);
    forall q | q in groups ensures q in p.hs && GroupOk(s.hooks[g := hook], q, groups[q], p.hs[q]) {
      GroupReplaced(s, p, g, hook, groups[q], q);
    }
  }

  lemma HooksReplaced(y: Yield, s: State, p: P.State, g: nat, hook: Hook)
    requires Numbers(s) && HooksOk(y, s) && ClosedLast(s) && Channels(s, p, g, hook) && HookInv(y, g, hook)
    ensures var hooks := s.hooks[g := hook];
      && (forall k :: 0 <= k < |hooks| ==> HookInv(y, k, hooks[k]))
      && (forall k :: 0 <= k < |hooks| ==> |hooks[k].origins| == |p.fs[k].enqueued|)
      && (forall k :: 0 <= k < |hooks| && p.fs[k].closed ==> AllEnded(hooks[k]))
  {
  }

  /** What the step of a hook keeps and how it grows. */
  lemma HookSteps(y: Yield, s: State, g: nat, hs: HookStep)
    requires Inv(y, s) && g < |s.hooks| && HookEnabled(y, g, s.hooks[g], hs)
    requires hs.Turn? && hs.hs.Register? ==> !s.p.fs[g].closed
    ensures HookInv(y, g, s.hooks[g])
    ensures var hook := HookDo(y, g, s.hooks[g], hs);
      && HookInv(y, g, hook) && HookGrows(s.hooks[g], hook)
      && |hook.origins| == |s.p.fs[g].enqueued| + (if hs.Offer? && hs.room then 1 else 0)
      && (s.p.fs[g].closed ==> AllEnded(hook))
  {
    assert HookInv(y, g, s.hooks[g]);
    HookInvKept(y, g, s.hooks[g], hs);
    StepGrows(y, g, s.hooks[g], hs);
    OnlyOffersEnqueue(y, g, s.hooks[g], hs);
    if s.p.fs[g].closed { EndedForGood(y, g, s.hooks[g], hs); }
  }

  /** It leaves alone the calls it does not begin or end. */
  lemma OthersGoOn(y: Yield, s: State, g: nat, hs: HookStep, q: nat)
    requires Inv(y, s) && g < |s.hooks| && HookEnabled(y, g, s.hooks[g], hs) && q in s.groups
    requires hs.Turn? ==> !OwnStep(hs.hs, q)
    ensures Sound(s.hooks[g]) && CallGoesOn(s, g, HookDo(y, g, s.hooks[g], hs), q)
  {
    assert HookInv(y, g, s.hooks[g]) && GroupOk(s.hooks, q, s.groups[q], s.p.hs[q]);
    if s.p.hs[q].stage.Serving? && s.groups[q].calling && s.groups[q].i == g {
      CallStands(y, g, s.hooks[g], hs, q);
    }
  }

  lemma TrafficKept(y: Yield, s: State, g: nat, hs: HookStep)
    requires Inv(y, s) && g < |s.hooks| && OfTraffic(s, g, hs) && HookEnabled(y, g, s.hooks[g], hs)
    ensures HookInv(y, g, s.hooks[g])
    ensures Inv(y, s.(hooks := s.hooks[g := HookDo(y, g, s.hooks[g], hs)]))
  {
    HookSteps(y, s, g, hs);
    var hook := HookDo(y, g, s.hooks[g], hs);
    forall q | q in s.groups ensures CallGoesOn(s, g, hook, q) { OthersGoOn(y, s, g, hs, q); }
    ReplaceHook(y, s, s.p, g, hook, s.groups);
  }

  ghost function Arrived(s: State, g: nat, timestamp: int): P.Step
    requires g < |s.p.fs|
  {
    P.InForwarder(g, F.Enqueue(Effect(g, |s.p.fs[g].enqueued|, timestamp)))
  }

  lemma ArrivedKept(s: State, g: nat, timestamp: int)
    requires P.Inv(s.p) && g < |s.p.fs| && HasRoom(s, g) && !s.p.fs[g].closed
    ensures P.Enabled(s.p, Arrived(s, g, timestamp))
    ensures var p := P.Do(s.p, Arrived(s, g, timestamp));
      && P.Inv(p) && p.hs == s.p.hs && |p.fs| == |s.p.fs| && !p.fs[g].closed
      && |p.fs[g].enqueued| == |s.p.fs[g].enqueued| + 1
      && forall k :: 0 <= k < |p.fs| && k != g ==> p.fs[k] == s.p.fs[k]
  {
    P.InvKept(s.p, Arrived(s, g, timestamp));
  }

  lemma EmitKept(y: Yield, s: State, g: nat, c: nat, timestamp: int)
    requires Inv(y, s) && g < |s.hooks| && !s.p.fs[g].closed
    requires HookEnabled(y, g, s.hooks[g], Offer(c, HasRoom(s, g)))
    ensures HookInv(y, g, s.hooks[g])
    ensures HasRoom(s, g) ==> P.Enabled(s.p, Arrived(s, g, timestamp))
    ensures
      var p := if HasRoom(s, g) then P.Do(s.p, Arrived(s, g, timestamp)) else s.p;
      Inv(y, State(p, s.hooks[g := HookDo(y, g, s.hooks[g], Offer(c, HasRoom(s, g)))], s.groups))
  {
    if HasRoom(s, g) {
      ArrivedKept(s, g, timestamp);
      EmitTo(y, s, g, Offer(c, true), P.Do(s.p, Arrived(s, g, timestamp)));
    } else {
      EmitTo(y, s, g, Offer(c, false), s.p);
    }
  }

  lemma EmitTo(y: Yield, s: State, g: nat, hs: HookStep, p: P.State)
    requires Inv(y, s) && g < |s.hooks| && hs.Offer? && HookEnabled(y, g, s.hooks[g], hs)
    requires P.Inv(p) && p.hs == s.p.hs && |p.fs| == |s.p.fs| && !p.fs[g].closed
    requires |p.fs[g].enqueued| == |s.p.fs[g].enqueued| + if hs.room then 1 else 0
    requires forall k :: 0 <= k < |p.fs| && k != g ==> p.fs[k] == s.p.fs[k]
    ensures HookInv(y, g, s.hooks[g])
    ensures Inv(y, State(p, s.hooks[g := HookDo(y, g, s.hooks[g], hs)], s.groups))
  {
    HookSteps(y, s, g, hs);
    var hook := HookDo(y, g, s.hooks[g], hs);
    forall q | q in s.groups ensures CallGoesOn(s, g, hook, q) { OthersGoOn(y, s, g, hs, q); }
    ReplaceHook(y, s, p, g, hook, s.groups);
  }

  /** No effect is ever offered to a channel that has been closed. */
  lemma NeverOffersWhenClosed(y: Yield, s: State, g: nat, c: nat, room: bool)
    requires Inv(y, s) && g < |s.hooks| && HookEnabled(y, g, s.hooks[g], Offer(c, room))
    ensures !s.p.fs[g].closed
  {
    if s.p.fs[g].closed {
      assert HookInv(y, g, s.hooks[g]);
      EndedForGood(y, g, s.hooks[g], Offer(c, room));
    }
  }

  // ----- steps of a handler that flushes the hooks -----

  lemma StartKept(y: Yield, s: State, q: nat)
    requires Inv(y, s) && Enabled(y, s, StartFlush(q))
    ensures AllSound(s)
    ensures Inv(y, Do(y, s, StartFlush(q)))
  {
    SoundHooks(y, s);
    var t := Do(y, s, StartFlush(q));
    forall g | 0 <= g < |s.hooks| ensures Known(s.hooks[g], t.groups[q].seen[g]) {
      assert t.groups[q].seen[g] == ReadCounts(s.hooks[g]);
    }
    forall r | r in t.groups ensures r in t.p.hs && GroupOk(t.hooks, r, t.groups[r], t.p.hs[r]) {
      if r != q { assert GroupOk(s.hooks, r, s.groups[r], s.p.hs[r]); }
    }
  }

  ghost function Begun(group: Group): Group {
    group.(calling := true)
  }

  lemma BeginKept(y: Yield, s: State, q: nat, conns: seq<nat>)
    requires Inv(y, s) && AtHook(s, q) && !s.groups[q].calling
    requires H.Enabled(s.hooks[s.groups[q].i].flush, H.Begin(q, conns))
    ensures var i := s.groups[q].i; HookInv(y, i, s.hooks[i])
    ensures var i := s.groups[q].i;
      Inv(y, State(s.p, s.hooks[i := HookDo(y, i, s.hooks[i], Turn(H.Begin(q, conns)))],
                   s.groups[q := Begun(s.groups[q])]))
  {
    var i, hs, group := s.groups[q].i, Turn(H.Begin(q, conns)), s.groups[q];
    HookSteps(y, s, i, hs);
    var hook := HookDo(y, i, s.hooks[i], hs);
    assert GroupOk(s.hooks, q, group, s.p.hs[q]);
    BeginAsks(y, i, s.hooks[i], q, conns, group.seen[i]);
    GroupBegins(s.hooks, i, hook, q, group, s.p.hs[q]);
    forall r | r in s.groups && r != q ensures CallGoesOn(s, i, hook, r) { OthersGoOn(y, s, i, hs, r); }
    ReplaceHook(y, s, s.p, i, hook, s.groups[q := Begun(group)]);
  }

  lemma GroupBegins(hooks: seq<Hook>, i: nat, hook: Hook, q: nat, group: Group, h: P.Handler)
    requires GroupOk(hooks, q, group, h) && h.stage.Serving? && i == group.i < |hooks| && !group.calling
    requires HookGrows(hooks[i], hook) && InCall(hook, q, group.seen[i])
    ensures GroupOk(hooks[i := hook], q, Begun(group), h)
  {
    GrowOne(hooks, i, hook);
    GroupGrows(hooks, hooks[i := hook], q, group, h);
  }

  ghost function Ended(group: Group, ok: bool): Group {
    group.(i := group.i + 1, calling := false, errors := group.errors + [ErrorOf(ok)])
  }

  ghost function EndStep(q: nat, ok: bool): HookStep {
    Turn(if ok then H.Finish(q) else H.Cancel(q))
  }

  lemma EndKept(y: Yield, s: State, q: nat, ok: bool)
    requires Inv(y, s) && AtHook(s, q) && s.groups[q].calling
    requires HookEnabled(y, s.groups[q].i, s.hooks[s.groups[q].i], EndStep(q, ok))
    ensures var i := s.groups[q].i; HookInv(y, i, s.hooks[i])
    ensures var i := s.groups[q].i;
      Inv(y, State(s.p, s.hooks[i := HookDo(y, i, s.hooks[i], EndStep(q, ok))],
                   s.groups[q := Ended(s.groups[q], ok)]))
  {
    var i, hs, group := s.groups[q].i, EndStep(q, ok), s.groups[q];
    HookSteps(y, s, i, hs);
    var hook := HookDo(y, i, s.hooks[i], hs);
    assert GroupOk(s.hooks, q, group, s.p.hs[q]);
    if ok { FinishFeeds(y, i, s.hooks[i], q, group.seen[i]); }
    GroupEnds(s.hooks, i, hook, q, group, s.p.hs[q], ok);
    forall r | r in s.groups && r != q ensures CallGoesOn(s, i, hook, r) { OthersGoOn(y, s, i, hs, r); }
    ReplaceHook(y, s, s.p, i, hook, s.groups[q := Ended(group, ok)]);
  }

  lemma GroupEnds(hooks: seq<Hook>, i: nat, hook: Hook, q: nat, group: Group, h: P.Handler, ok: bool)
    requires GroupOk(hooks, q, group, h) && h.stage.Serving? && i == group.i < |hooks| && group.calling
    requires HookGrows(hooks[i], hook) && (ok ==> AllFed(hook, group.seen[i]))
    ensures GroupOk(hooks[i := hook], q, Ended(group, ok), h)
  {
    var after := hooks[i := hook];
    GrowOne(hooks, i, hook);
    NoErrorSnoc(group.errors, ErrorOf(ok));
    forall g | 0 <= g < |after| ensures Known(after[g], group.seen[g]) {
      KnownGrows(hooks[g], after[g], group.seen[g]);
    }
    if FirstError(group.errors) == None && ok {
      forall g | 0 <= g < i + 1 ensures AllFed(after[g], group.seen[g]) {
        if g < i { AllFedGrows(hooks[g], after[g], group.seen[g]); }
      }
    }
  }

  lemma HooksDoneKept(y: Yield, s: State, q: nat)
    requires Inv(y, s) && Enabled(y, s, HooksDone(q))
    ensures AllSound(s)
    ensures Inv(y, Do(y, s, HooksDone(q)))
  {
    var step := P.HooksFlushed(q, FirstError(s.groups[q].errors) == None);
    SoundHooks(y, s);
    var t := Do(y, s, HooksDone(q));
    P.InvKept(s.p, step);
    assert P.HandlerOk(s.p, q);
    forall r | r in t.groups ensures r in t.p.hs && GroupOk(t.hooks, r, t.groups[r], t.p.hs[r]) {
      assert GroupOk(s.hooks, r, s.groups[r], s.p.hs[r]);
    }
  }

  lemma InvKept(y: Yield, s: State, step: Step)
    requires Inv(y, s) && Enabled(y, s, step)
    ensures AllSound(s)
    ensures Inv(y, Do(y, s, step))
  {
    SoundHooks(y, s);
    match step
    case InPath(ps) => PathKept(y, s, ps);
    case InHook(g, hs) => TrafficKept(y, s, g, hs);
    case Emit(g, c, timestamp) => EmitKept(y, s, g, c, timestamp);
    case StartFlush(q) => StartKept(y, s, q);
    case BeginHook(q, conns) => BeginKept(y, s, q, conns);
    case EndHook(q, ok) => EndKept(y, s, q, ok);
    case HooksDone(q) => HooksDoneKept(y, s, q);
  }

  // ----- runs -----

  /** Hooks go onward, and what a group has noted at its beginning stays. */
  ghost predicate GoesOnward(s: State, t: State) {
    && |t.hooks| == |s.hooks| && (forall g :: 0 <= g < |s.hooks| ==> Onward(s.hooks[g], t.hooks[g]))
    && (forall q :: q in s.groups ==> q in t.groups && t.groups[q].seen == s.groups[q].seen)
  }

  lemma OneGoesOnward(y: Yield, s: State, p: P.State, g: nat, hs: HookStep, groups: map<nat, Group>)
    requires HooksOk(y, s) && g < |s.hooks| && HookEnabled(y, g, s.hooks[g], hs)
    requires forall q :: q in s.groups ==> q in groups && groups[q].seen == s.groups[q].seen
    ensures HookInv(y, g, s.hooks[g])
    ensures GoesOnward(s, State(p, s.hooks[g := HookDo(y, g, s.hooks[g], hs)], groups))
  {
    assert HookInv(y, g, s.hooks[g]);
    StepGoesOnward(y, g, s.hooks[g], hs);
  }

  lemma DoGoesOnward(y: Yield, s: State, step: Step)
    requires HooksOk(y, s) && Enabled(y, s, step)
    ensures AllSound(s)
    ensures GoesOnward(s, Do(y, s, step))
  {
    SoundHooks(y, s);
    var t := Do(y, s, step);
    match step
    case InPath(_) =>
    case InHook(g, hs) => OneGoesOnward(y, s, t.p, g, hs, t.groups);
    case Emit(g, c, _) => OneGoesOnward(y, s, t.p, g, Offer(c, HasRoom(s, g)), t.groups);
    case StartFlush(_) =>
    case BeginHook(q, conns) => OneGoesOnward(y, s, t.p, s.groups[q].i, Turn(H.Begin(q, conns)), t.groups);
    case EndHook(q, ok) => OneGoesOnward(y, s, t.p, s.groups[q].i, EndStep(q, ok), t.groups);
    case HooksDone(_) =>
  }

  lemma OnwardOn(s: State, t: State, u: State)
    requires GoesOnward(s, t) && GoesOnward(t, u)
    ensures GoesOnward(s, u)
  {
    forall g | 0 <= g < |s.hooks| ensures Onward(s.hooks[g], u.hooks[g]) {
      OnwardAgain(s.hooks[g], t.hooks[g], u.hooks[g]);
    }
  }

  ghost predicate Goes(y: Yield, s: State, step: Step, t: State) {
    Enabled(y, s, step) && AllSound(s) && t == Do(y, s, step)
  }

  ghost function GoesWith(y: Yield): (State, Step, State) -> bool {
    (s, step, t) => Goes(y, s, step, t)
  }

  ghost predicate IsRun(y: Yield, run: seq<State>, steps: seq<Step>) {
    IsPath(GoesWith(y), run, steps) && Initial(run[0])
  }

  lemma InitialInv(y: Yield, s: State)
    requires Initial(s)
    ensures Inv(y, s)
  {
    P.InitialInv(s.p);
    forall g | 0 <= g < |s.hooks| ensures HookInv(y, g, s.hooks[g]) {}
  }

  lemma GoingKeepsInv(y: Yield, s: State, step: Step, t: State)
    requires Inv(y, s) && Goes(y, s, step, t)
    ensures Inv(y, t)
  {
    InvKept(y, s, step);
  }

  lemma RunInv(y: Yield, run: seq<State>, steps: seq<Step>, k: nat)
    requires IsRun(y, run, steps) && k < |run|
    ensures Inv(y, run[k])
  {
    var inv := s => Inv(y, s);
    forall s, step, t | GoesWith(y)(s, step, t) && inv(s) ensures inv(t) { GoingKeepsInv(y, s, step, t); }
    InitialInv(y, run[0]);
    InvHolds(GoesWith(y), inv, run, steps, k);
  }

  lemma RunGoesOnward(y: Yield, run: seq<State>, steps: seq<Step>, j: nat, k: nat)
    requires IsRun(y, run, steps) && j <= k < |run|
    ensures GoesOnward(run[j], run[k])
  {
    var onward := (s, t) => GoesOnward(s, t);
    forall m | 0 <= m < |run| - 1 ensures onward(run[m], run[m + 1]) {
      RunInv(y, run, steps, m);
      assert GoesWith(y)(run[m], steps[m], run[m + 1]);
      DoGoesOnward(y, run[m], steps[m]);
    }
    forall s, t, u | onward(s, t) && onward(t, u) ensures onward(s, u) { OnwardOn(s, t, u); }
    HoldsThroughout(onward, run, j, k);
  }

  /** Once a handler has flushed the group, every hook's Flush and every forwarder's WaitDrained
      has returned, and what the delivery path takes for success is that Flush returned nil. */
  lemma FlushOkIffNoError(y: Yield, run: seq<State>, steps: seq<Step>, k: nat, q: nat)
    requires IsRun(y, run, steps) && k < |run| && q in run[k].groups
    ensures q in run[k].p.hs
    ensures var h, errors := run[k].p.hs[q], run[k].groups[q].errors;
      !h.stage.Serving? && !h.stage.Flushing? ==>
        |errors| == 2 * |run[k].hooks| && (h.flushOk <==> FirstError(errors) == None)
  {
    RunInv(y, run, steps, k);
    assert GroupOk(run[k].hooks, q, run[k].groups[q], run[k].p.hs[q]);
  }

  // ----- from bytes to records -----

  /** The record of q's request has been made, q's flush of the group had returned nil, and
      neither the recorder had been stopped nor a forwarder cancelled. */
  ghost predicate FlushedRecord(s: State, r: R.Record, q: nat) {
    && r in s.p.r.records && r.finisher == q && q in s.groups && q in s.p.hs
    && FirstError(s.groups[q].errors) == None
    && (r.flushed || !s.p.r.stopped)
    && (s.p.hs[q].stage == P.Done(true) || P.NoneCancelled(s.p))
  }

  /** The effect was dropped for want of room in the channel, or it was handled before the
      record was made, and is in the record unless it lies outside the scope's times or went to
      a greater scope. */
  ghost predicate Accounted(s: State, r: R.Record, g: nat, x: Item)
    requires Numbers(s) && g < |s.hooks|
  {
    && x in s.hooks[g].fates
    && (s.hooks[g].fates[x].Enqueued? ==> InRecorder(s.p, r, g, s.hooks[g].fates[x].number))
  }

  ghost predicate InRecorder(p: P.State, r: R.Record, g: nat, number: nat) {
    g < |p.fs| && number < |p.fs[g].enqueued| && exists j :: P.NotOrphaned(p, r, p.fs[g].enqueued[number], j)
  }

  lemma DoneIsGathered(y: Yield, s: State, r: R.Record, q: nat, g: nat)
    requires Inv(y, s) && FlushedRecord(s, r, q) && g < |s.hooks|
    ensures g < |s.groups[q].seen| && AllFed(s.hooks[g], s.groups[q].seen[g])
    ensures s.p.hs[q].flushOk && g < |s.p.hs[q].marks| && Caught(s.hooks[g], s.groups[q].seen[g], s.p.hs[q].marks[g])
  {
    assert GroupOk(s.hooks, q, s.groups[q], s.p.hs[q]);
    assert P.RecordOk(s.p, r) && P.HandlerOk(s.p, q);
  }

  lemma EarlyIsFed(y: Yield, s: State, r: R.Record, q: nat, g: nat, c: nat, m: nat)
    requires Inv(y, s) && FlushedRecord(s, r, q) && g < |s.hooks| && g < |s.groups[q].seen|
    requires Early(s.hooks[g], s.groups[q].seen[g], c, m)
    ensures c in s.hooks[g].links
    ensures var l := s.hooks[g].links[c]; m < |l.fed| && l.fed <= l.data
  {
    DoneIsGathered(y, s, r, q, g);
    var hook := s.hooks[g];
    assert HookInv(y, g, hook) && H.Passed(hook.flush.conns, s.groups[q].seen[g], c);
    assert c in hook.links && LinkOk(hook.flush.conns[c], hook.links[c]);
  }

  lemma EarlyIsAccounted(y: Yield, s: State, r: R.Record, q: nat, g: nat, x: Item)
    requires Inv(y, s) && FlushedRecord(s, r, q) && g < |s.hooks| && g < |s.groups[q].seen|
    requires Early(s.hooks[g], s.groups[q].seen[g], x.conn, x.chunk) && x.conn in s.hooks[g].links
    requires x.chunk < |s.hooks[g].links[x.conn].fed| && x.i < y(g, s.hooks[g].links[x.conn].fed[..x.chunk + 1])
    ensures Accounted(s, r, g, x)
  {
    DoneIsGathered(y, s, r, q, g);
    var hook := s.hooks[g];
    assert HookInv(y, g, hook);
    FedIsOffered(y, g, hook, x);
    assert CaughtItem(hook.fates, x, s.p.hs[q].marks[g]);
    if hook.fates[x].Enqueued? { P.MarkedIsNotOrphaned(s.p, r, g, hook.fates[x].number); }
  }

  /** What the group notes at its beginning is what has been read then. */
  lemma NotedAtStart(y: Yield, run: seq<State>, steps: seq<Step>, j: nat, k: nat, q: nat, g: nat, c: nat)
    requires IsRun(y, run, steps) && j < k < |run| && steps[j] == StartFlush(q)
    requires g < |run[j].hooks| && c in run[j].hooks[g].links
    ensures g < |run[k].hooks| && c in run[k].hooks[g].flush.conns && c in run[k].hooks[g].links
    ensures run[j].hooks[g].links[c].data <= run[k].hooks[g].links[c].data
    ensures q in run[k].groups && g < |run[k].groups[q].seen| && c in run[k].groups[q].seen[g]
    ensures run[k].groups[q].seen[g][c] == |run[j].hooks[g].links[c].data|
  {
    RunInv(y, run, steps, j);
    assert GoesWith(y)(run[j], steps[j], run[j + 1]) && HookInv(y, g, run[j].hooks[g]);
    assert run[j + 1].hooks == run[j].hooks && run[j + 1].groups[q].seen[g] == ReadCounts(run[j].hooks[g]);
    RunGoesOnward(y, run, steps, j + 1, k);
    assert Onward(run[j].hooks[g], run[k].hooks[g]);
    assert LinkOk(run[j].hooks[g].flush.conns[c], run[j].hooks[g].links[c]);
  }

  /** The whole way, in every interleaving. Take any chunk that a connection had read when a
      handler began to flush the hook group. If the flush returned nil, the record has been
      made, nothing was stopped or cancelled, and the connection lost no write, then the chunk
      has been fed behind those read before it, and each effect that the parser found in it was
      dropped for want of room, or is in the record, or lies outside the scope's times, or went
      to a greater scope. */
  lemma ReadBeforeFlushIsAccounted(
    y: Yield, run: seq<State>, steps: seq<Step>, j: nat, k: nat, q: nat, r: R.Record, g: nat, c: nat, m: nat)
    requires IsRun(y, run, steps) && j < k < |run| && steps[j] == StartFlush(q)
    requires FlushedRecord(run[k], r, q)
    requires g < |run[j].hooks| && c in run[j].hooks[g].links && m < |run[j].hooks[g].links[c].data|
    ensures Numbers(run[k]) && g < |run[k].hooks| && c in run[k].hooks[g].flush.conns && c in run[k].hooks[g].links
    ensures
      var read, fed := run[j].hooks[g].links[c].data, run[k].hooks[g].links[c].fed;
      !run[k].hooks[g].flush.conns[c].lost ==>
        && m < |fed| && fed[..m + 1] == read[..m + 1]
        && forall i: nat :: i < y(g, read[..m + 1]) ==> Accounted(run[k], r, g, Item(c, m, i))
  {
    NotedAtStart(y, run, steps, j, k, q, g, c);
    RunInv(y, run, steps, k);
    if !run[k].hooks[g].flush.conns[c].lost {
      SeenIsAccounted(y, run[k], r, q, g, c, m);
      SamePrefix(run[j].hooks[g].links[c].data, run[k].hooks[g].links[c].fed, run[k].hooks[g].links[c].data, m + 1);
    }
  }

  lemma SeenIsAccounted(y: Yield, s: State, r: R.Record, q: nat, g: nat, c: nat, m: nat)
    requires Inv(y, s) && FlushedRecord(s, r, q) && g < |s.hooks| && g < |s.groups[q].seen|
    requires Early(s.hooks[g], s.groups[q].seen[g], c, m)
    ensures c in s.hooks[g].links
    ensures var l := s.hooks[g].links[c]; m < |l.fed| && l.fed <= l.data
    ensures forall i: nat :: i < y(g, s.hooks[g].links[c].fed[..m + 1]) ==> Accounted(s, r, g, Item(c, m, i))
  {
    EarlyIsFed(y, s, r, q, g, c, m);
    forall i: nat | i < y(g, s.hooks[g].links[c].fed[..m + 1]) ensures Accounted(s, r, g, Item(c, m, i)) {
      EarlyIsAccounted(y, s, r, q, g, Item(c, m, i));
    }
  }

  lemma SamePrefix(a: seq<Bytes>, b: seq<Bytes>, all: seq<Bytes>, n: nat)
    requires a <= all && b <= all && n <= |a| && n <= |b|
    ensures a[..n] == b[..n]
  {
  }
}
