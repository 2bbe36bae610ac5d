/** One complete run from bytes to records: when the handler begins to flush the hooks, a
    connection has read a chunk that it has neither forwarded nor parsed; in the end the effect
    found in the chunk is in the record. */
module CaptureWitness {
  import opened Effects
  import opened HookGroup
  import opened HookTraffic
  import opened CapturePath
  import opened Runs
  import F = Forwarder
  import H = FlushHandshake
  import P = Pipeline
  import R = Recorder
  import W = PipelineWitness

  /** One effect in every chunk. */
  const Y: Yield := (g, chunks) => 1

  const CHUNK: Bytes := [1]
  const X := Item(0, 0, 0)

  ghost const START: State :=
    State(P.State([F.INITIAL], R.INITIAL, map[]), [Hook(H.INITIAL, map[], map[], [])], map[])

  /** Some run leads to s. */
  ghost predicate Reached(s: State) {
    Leads(GoesWith(Y), START, s)
  }

  lemma ReachedInv(s: State)
    requires Reached(s)
    ensures Inv(Y, s) && AllSound(s)
  {
    var run, steps :| IsPath(GoesWith(Y), run, steps) && run[0] == START && run[|steps|] == s;
    RunInv(Y, run, steps, |steps|);
    SoundHooks(Y, s);
  }

  lemma Go(s: State, step: Step) returns (t: State)
    requires Reached(s) && Enabled(Y, s, step)
    ensures AllSound(s) && t == Do(Y, s, step) && Reached(t)
  {
    ReachedInv(s);
    t := Do(Y, s, step);
    Runs.GoOn(GoesWith(Y), START, s, step, t);
  }

  // ----- up to the flush -----

  /** The only connection of the only hook, not asked by any call of Flush. */
  ghost function Lone(pc: H.Pc, read: nat, fed: nat): H.State {
    H.State(map[0 := H.Conn(pc, read, fed, false)], {0}, map[])
  }

  lemma Opened() returns (s: State)
    ensures Reached(s)
    ensures s == State(P.State([F.INITIAL], W.ScopeOpen([]), map[0 := P.Handler(P.Serving, 1, false, [])]),
      [Hook(H.INITIAL, map[], map[], [])], map[])
  {
    Stay(GoesWith(Y), START);
    s := START;
    s := Go(s, InPath(P.Open(0, 5)));
    s := Go(s, InPath(P.Opened(0)));
    assert s.p.r.pending == map[] && s.p.r == W.ScopeOpen([]);
    assert s.p.hs == map[0 := P.Handler(P.Serving, 1, false, [])];
  }

  lemma GoHook(s: State, x: Hook, hs: HookStep, z: Hook) returns (t: State)
    requires Reached(s) && s.hooks == [x] && |s.p.fs| == 1 && OfTraffic(s, 0, hs)
    requires HookEnabled(Y, 0, x, hs) && Sound(x) && z == HookDo(Y, 0, x, hs)
    ensures Reached(t) && t == s.(hooks := [z])
  {
    t := Go(s, InHook(0, hs));
    assert [x][0 := z] == [z];
  }

  lemma ChunkRead() returns (s: State)
    ensures Reached(s)
    ensures s == State(P.State([F.INITIAL], W.ScopeOpen([]), map[0 := P.Handler(P.Serving, 1, false, [])]),
      [Hook(Lone(H.HasRead, 1, 0), map[0 := Link([CHUNK], [], 0)], map[], [])], map[])
  {
    s := Opened();
    var registered := Hook(Lone(H.AtSelect, 0, 0), map[0 := Link([], [], 0)], map[], []);
    s := GoHook(s, s.hooks[0], Turn(H.Register(0)), registered);
    var none: seq<Bytes> := [];
    assert none + [CHUNK] == [CHUNK];
    s := GoHook(s, registered, Read(0, CHUNK), Hook(Lone(H.HasRead, 1, 0), map[0 := Link([CHUNK], [], 0)], map[], []));
  }

  // ----- the flush of the hooks -----

  /** The state in which the flush begins: the chunk has been read and not fed. */
  ghost function Unfed(): State {
    State(Serving([]), [Hook(Lone(H.HasRead, 1, 0), map[0 := Link([CHUNK], [], 0)], map[], [])], map[])
  }

  /** Some run leads to s through the beginning of the flush in that state. */
  ghost predicate Since(s: State) {
    LeadsThrough(GoesWith(Y), START, Unfed(), StartFlush(0), s)
  }

  lemma SinceInv(s: State)
    requires Since(s)
    ensures Inv(Y, s) && AllSound(s)
  {
    var run, steps, j :|
      Passes(GoesWith(Y), run, steps, j, Unfed(), StartFlush(0)) && run[0] == START && run[|steps|] == s;
    RunInv(Y, run, steps, |steps|);
    SoundHooks(Y, s);
  }

  lemma GoOn(s: State, step: Step) returns (t: State)
    requires Since(s) && Enabled(Y, s, step)
    ensures AllSound(s) && t == Do(Y, s, step) && Since(t)
  {
    SinceInv(s);
    t := Do(Y, s, step);
    GoOnThrough(GoesWith(Y), START, Unfed(), StartFlush(0), s, step, t);
  }

  /** Where the flush of the hooks stands. */
  ghost function Flushing(p: P.State, flush: H.State, l: Link, origins: seq<Item>, group: Group): State {
    var fates := if origins == [] then map[] else map[X := Enqueued(0)];
    State(p, [Hook(flush, map[0 := l], fates, origins)], map[0 := group])
  }

  ghost function Called(pc: H.Pc, fed: nat, call: H.CallPc, i: nat): H.State {
    H.State(map[0 := H.Conn(pc, 1, fed, false)], {0}, map[0 := H.Call(call, [0], i, map[0 := 1])])
  }

  ghost function Serving(source: seq<Effect>): P.State {
    P.State([if source == [] then F.INITIAL else W.Hook(source, F.AtSelect, 0, 0, {}, map[], [])],
      W.ScopeOpen([]), map[0 := P.Handler(P.Serving, 1, false, [])])
  }

  ghost function Calling(): Group {
    Group([map[0 := 1]], 0, true, [])
  }

  lemma FlushStarted() returns (s: State)
    ensures Since(s)
    ensures s ==
      Flushing(Serving([]), Lone(H.HasRead, 1, 0), Link([CHUNK], [], 0), [], Group([map[0 := 1]], 0, false, []))
  {
    var before := ChunkRead();
    assert ReadCounts(before.hooks[0]) == map[0 := 1];
    s := Go(before, StartFlush(0));
    assert s.groups[0].seen == [map[0 := 1]];
    GoThrough(GoesWith(Y), START, Unfed(), StartFlush(0), s);
  }

  lemma HookCalled() returns (s: State)
    ensures Since(s)
    ensures s == Flushing(Serving([]), Called(H.HasRead, 0, H.Offering, 0), Link([CHUNK], [], 0), [], Calling())
  {
    s := FlushStarted();
    var flush := s.hooks[0].flush;
    assert H.Enumerates([0], flush.active) && H.Marks(flush) == map[0 := 1];
    var hook := Hook(Called(H.HasRead, 0, H.Offering, 0), map[0 := Link([CHUNK], [], 0)], map[], []);
    var x := s.hooks[0];
    s := GoOn(s, BeginHook(0, [0]));
    assert [x][0 := hook] == [hook];
  }

  lemma GoHookOn(s: State, x: Hook, hs: HookStep, z: Hook) returns (t: State)
    requires Since(s) && s.hooks == [x] && |s.p.fs| == 1 && OfTraffic(s, 0, hs)
    requires HookEnabled(Y, 0, x, hs) && Sound(x) && z == HookDo(Y, 0, x, hs)
    ensures Since(t) && t == s.(hooks := [z])
  {
    t := GoOn(s, InHook(0, hs));
    assert [x][0 := z] == [z];
  }

  ghost function Parsing(flush: H.State, l: Link): Hook {
    Hook(flush, map[0 := l], map[X := Enqueued(0)], [X])
  }

  lemma Wrote() returns (s: State)
    ensures Since(s)
    ensures s == Flushing(Serving([]), Called(H.Written, 0, H.Offering, 0), Link([CHUNK], [], 0), [], Calling())
  {
    s := HookCalled();
    var x := Hook(Called(H.Written, 0, H.Offering, 0), map[0 := Link([CHUNK], [], 0)], map[], []);
    s := GoHookOn(s, s.hooks[0], Turn(H.Write(0)), x);
  }

  lemma Enqueues()
    ensures F.Enabled(F.INITIAL, F.Enqueue(W.E))
    ensures F.Do(F.INITIAL, F.Enqueue(W.E)) == W.Hook([W.E], F.AtSelect, 0, 0, {}, map[], [])
  {
    var empty: seq<Effect> := [];
    assert empty + [W.E] == [W.E];
  }

  lemma Emitted() returns (s: State)
    ensures Since(s)
    ensures s == Flushing(Serving([W.E]), Called(H.Written, 0, H.Offering, 0), Link([CHUNK], [], 1), [X], Calling())
  {
    s := Wrote();
    Enqueues();
    var before, z := s, Parsing(Called(H.Written, 0, H.Offering, 0), Link([CHUNK], [], 1));
    var nothing: seq<Item> := [];
    assert nothing + [X] == [X];
    assert HookDo(Y, 0, s.hooks[0], Offer(0, true)) == z;
    s := GoOn(s, Emit(0, 0, 7));
    assert before.hooks[0 := z] == [z];
    assert before.p.fs[0 := F.Do(F.INITIAL, F.Enqueue(W.E))] == Serving([W.E]).fs;
  }

  lemma ChunkFed() returns (s: State)
    ensures Since(s)
    ensures s ==
      Flushing(Serving([W.E]), Called(H.AtSelect, 1, H.Offering, 0), Link([CHUNK], [CHUNK], 0), [X], Calling())
  {
    s := Emitted();
    var none: seq<Bytes> := [];
    assert none + [CHUNK] == [CHUNK];
    s := GoHookOn(s, s.hooks[0], Feed(0),
      Parsing(Called(H.AtSelect, 1, H.Offering, 0), Link([CHUNK], [CHUNK], 0)));
  }

  lemma Accepted() returns (s: State)
    ensures Since(s)
    ensures s ==
      Flushing(Serving([W.E]), Called(H.Serving(0), 1, H.Waiting(false), 0), Link([CHUNK], [CHUNK], 0), [X], Calling())
  {
    s := ChunkFed();
    s := GoHookOn(s, s.hooks[0], Turn(H.Accept(0)),
      Parsing(Called(H.Serving(0), 1, H.Waiting(false), 0), Link([CHUNK], [CHUNK], 0)));
  }

  lemma Acknowledged() returns (s: State)
    ensures Since(s)
    ensures s ==
      Flushing(Serving([W.E]), Called(H.AtSelect, 1, H.Offering, 1), Link([CHUNK], [CHUNK], 0), [X], Calling())
  {
    s := Accepted();
    var l := Link([CHUNK], [CHUNK], 0);
    s := GoHookOn(s, s.hooks[0], Turn(H.FlushOver(0)), Parsing(Called(H.AtSelect, 1, H.Waiting(true), 0), l));
    s := GoHookOn(s, s.hooks[0], Turn(H.SeeAck(0)), Parsing(Called(H.AtSelect, 1, H.Offering, 1), l));
  }

  lemma HookFlushed() returns (s: State)
    ensures Since(s)
    ensures s == Flushing(Serving([W.E]), Called(H.AtSelect, 1, H.Returned(true), 1), Link([CHUNK], [CHUNK], 0), [X],
      Group([map[0 := 1]], 1, false, [None]))
  {
    s := Acknowledged();
    var before, z := s, Parsing(Called(H.AtSelect, 1, H.Returned(true), 1), Link([CHUNK], [CHUNK], 0));
    assert HookDo(Y, 0, s.hooks[0], EndStep(0, true)) == z;
    s := GoOn(s, EndHook(0, true));
    assert before.hooks[0 := z] == [z];
    var none: seq<Error> := [];
    assert none + [None] == [None] && ErrorOf(true) == None;
  }

  lemma HooksFlushed() returns (s: State)
    ensures Since(s) && s.p == W.FlushBegun() && Kept(s)
  {
    s := HookFlushed();
    var errors: seq<Error> := [None];
    assert errors[1..] == [] && FirstError(errors) == None;
    s := GoOn(s, HooksDone(0));
    assert s.p.hs == W.FlushBegun().hs;
  }

  // ----- the rest of the way -----

  /** What the delivery path leaves alone: the effect of the chunk was put into the channel. */
  ghost predicate Kept(s: State) {
    && |s.hooks| == 1 && 0 in s.groups && 0 in s.hooks[0].flush.conns && !s.hooks[0].flush.conns[0].lost
    && X in s.hooks[0].fates && s.hooks[0].fates[X] == Enqueued(0)
  }

  /** Some run leads through there to a state in which the delivery path stands at p. */
  ghost predicate Lifted(p: P.State) {
    exists s :: Since(s) && Kept(s) && s.p == p && |p.fs| == 1
  }

  lemma LiftedGoesOn(p: P.State, step: P.Step, next: P.State)
    requires Lifted(p) && W.Delivers(p, step, next)
    ensures Lifted(next)
  {
    var s :| Since(s) && Kept(s) && s.p == p && |p.fs| == 1;
    var t := GoOn(s, InPath(step));
    PathLeavesSize(s.p, step);
    assert Since(t) && Kept(t) && t.p == next;
  }

  lemma RecordLifted() returns (s: State)
    ensures Since(s) && Kept(s) && |s.p.r.records| == 1
    ensures FlushedRecord(s, s.p.r.records[0], 0) && s.p.r.records[0].effects == [W.E]
  {
    var p := W.RecordMade();
    var begun := HooksFlushed();
    assert Lifted(W.FlushBegun());
    forall a, step, b | W.Delivers(a, step, b) && Lifted(a) ensures Lifted(b) { LiftedGoesOn(a, step, b); }
    InvHoldsThere(W.Delivers, Lifted, W.FlushBegun(), p);
    s :| Since(s) && Kept(s) && s.p == p && |p.fs| == 1;
    SinceInv(s);
    assert GroupOk(s.hooks, 0, s.groups[0], s.p.hs[0]);
  }

  /** Everything that the theorem about bytes and records supposes comes true in one run: the
      flush began when the chunk had been read and not yet fed, and the effect is recorded. */
  lemma ChunkIsRecorded() returns (run: seq<State>, steps: seq<Step>, j: nat, r: R.Record)
    ensures IsRun(Y, run, steps) && j < |steps| && run[j] == Unfed() && steps[j] == StartFlush(0)
    ensures FlushedRecord(run[|steps|], r, 0) && Kept(run[|steps|]) && r.effects == [W.E]
  {
    var s := RecordLifted();
    r := s.p.r.records[0];
    run, steps, j :|
      Passes(GoesWith(Y), run, steps, j, Unfed(), StartFlush(0)) && run[0] == START && run[|steps|] == s;
  }
}
