/** Flush of a proxy hook: every active connection in turn is asked over its flush channel to
    read what is there to read, and to close an acknowledgement when it has. Connections and
    callers of Flush run concurrently, as interleaved atomic steps. */
module FlushHandshake {
  import opened Runs

  /** Where a connection's sniff loop stands; flush is the call it is serving, if any. */
  datatype Pc =
    | AtSelect
    | HasRead
    | Written
    | Serving(flush: nat)
    | ServingHasRead(flush: nat)
    | ServingWritten(flush: nat)
    | Ended

  /** The chunks read from the client and fed to the parser; lost says that a write to the
      server has failed and its chunk was not fed. */
  datatype Conn = Conn(pc: Pc, read: nat, fed: nat, lost: bool)

  /** A call of Flush: the connections it found active, and the one it has come to. */
  datatype CallPc = Offering | Waiting(acked: bool) | Returned(ok: bool)

  /** marks says how much each connection had read when the call began. */
  datatype Call = Call(pc: CallPc, conns: seq<nat>, i: nat, marks: map<nat, nat>)

  datatype State = State(conns: map<nat, Conn>, active: set<nat>, calls: map<nat, Call>)

  ghost const INITIAL: State := State(map[], {}, map[])

  datatype Step =
    // connections
    | Register(c: nat)
    | ReadChunk(c: nat)
    | Write(c: nat)
    | WriteFails(c: nat)
    | Feed(c: nat)
    | End(c: nat)
    | Unregister(c: nat)
    | FlushOver(c: nat)
    // callers of Flush
    | Begin(f: nat, conns: seq<nat>)
    | Accept(f: nat)
    | SkipEnded(f: nat)
    | SeeAck(f: nat)
    | Cancel(f: nat)
    | Finish(f: nat)

  ghost predicate Enumerates(conns: seq<nat>, active: set<nat>) {
    && (forall c :: c in active <==> c in conns)
    && (forall i, j :: 0 <= i < j < |conns| ==> conns[i] != conns[j])
  }

  ghost predicate Underway(s: State, f: nat) {
    f in s.calls && !s.calls[f].pc.Returned?
  }

  /** The call has come to a connection. */
  ghost predicate AtConn(s: State, f: nat) {
    Underway(s, f) && s.calls[f].i < |s.calls[f].conns| && s.calls[f].conns[s.calls[f].i] in s.conns
  }

  ghost function Current(s: State, f: nat): nat
    requires AtConn(s, f)
  {
    s.calls[f].conns[s.calls[f].i]
  }

  ghost predicate Enabled(s: State, step: Step) {
    match step
    case Register(c) => c !in s.conns
    case ReadChunk(c) => c in s.conns && (s.conns[c].pc.AtSelect? || s.conns[c].pc.Serving?)
    case Write(c) => c in s.conns && (s.conns[c].pc.HasRead? || s.conns[c].pc.ServingHasRead?)
    case WriteFails(c) => c in s.conns && (s.conns[c].pc.HasRead? || s.conns[c].pc.ServingHasRead?)
    case Feed(c) => c in s.conns && (s.conns[c].pc.Written? || s.conns[c].pc.ServingWritten?)
    case End(c) => c in s.conns && s.conns[c].pc.AtSelect?
    case Unregister(c) => c in s.active && c in s.conns && s.conns[c].pc.Ended?
    case FlushOver(c) => c in s.conns && s.conns[c].pc.Serving?
    case Begin(f, conns) => !Underway(s, f) && Enumerates(conns, s.active)
    case Accept(f) => AtConn(s, f) && s.calls[f].pc.Offering? && s.conns[Current(s, f)].pc.AtSelect?
    case SkipEnded(f) => AtConn(s, f) && s.conns[Current(s, f)].pc.Ended?
    case SeeAck(f) => AtConn(s, f) && s.calls[f].pc == Waiting(true)
    case Cancel(f) => AtConn(s, f)
    case Finish(f) => Underway(s, f) && s.calls[f].i == |s.calls[f].conns|
  }

  ghost function SetConn(s: State, c: nat, conn: Conn): State {
    s.(conns := s.conns[c := conn])
  }

  ghost function SetCall(s: State, f: nat, call: Call): State {
    s.(calls := s.calls[f := call])
  }

  /** The connection's acknowledgement is closed: the call waiting for it may see that. */
  ghost function Acknowledge(calls: map<nat, Call>, c: nat, flush: nat): map<nat, Call> {
    if flush in calls && calls[flush].pc.Waiting? && calls[flush].i < |calls[flush].conns|
      && calls[flush].conns[calls[flush].i] == c
    then calls[flush := calls[flush].(pc := Waiting(true))]
    else calls
  }

  ghost function Marks(s: State): map<nat, nat>
    requires s.active <= s.conns.Keys
  {
    map c | c in s.active :: s.conns[c].read
  }

  ghost function Do(s: State, step: Step): State
    requires Enabled(s, step) && s.active <= s.conns.Keys
  {
    match step
    case Register(c) => SetConn(s, c, Conn(AtSelect, 0, 0, false)).(active := s.active + {c})
    case ReadChunk(c) =>
      var conn := s.conns[c];
      var pc := if conn.pc.Serving? then ServingHasRead(conn.pc.flush) else HasRead;
      SetConn(s, c, conn.(read := conn.read + 1, pc := pc))
    case Write(c) =>
      var conn := s.conns[c];
      SetConn(s, c, conn.(pc := if conn.pc.HasRead? then Written else ServingWritten(conn.pc.flush)))
    case WriteFails(c) =>
      var conn := s.conns[c];
      if conn.pc.HasRead? then SetConn(s, c, conn.(pc := Ended, lost := true))
      else SetConn(s, c, conn.(pc := AtSelect, lost := true)).(calls := Acknowledge(s.calls, c, conn.pc.flush))
    case Feed(c) =>
      var conn := s.conns[c];
      SetConn(s, c, conn.(fed := conn.fed + 1, pc := if conn.pc.Written? then AtSelect else Serving(conn.pc.flush)))
    case End(c) => SetConn(s, c, s.conns[c].(pc := Ended))
    case Unregister(c) => s.(active := s.active - {c})
    case FlushOver(c) =>
      var conn := s.conns[c];
      SetConn(s, c, conn.(pc := AtSelect)).(calls := Acknowledge(s.calls, c, conn.pc.flush))
    case Begin(f, conns) => SetCall(s, f, Call(Offering, conns, 0, Marks(s)))
    case Accept(f) =>
      var c := Current(s, f);
      SetConn(SetCall(s, f, s.calls[f].(pc := Waiting(false))), c, s.conns[c].(pc := Serving(f)))
    case SkipEnded(f) => SetCall(s, f, s.calls[f].(pc := Offering, i := s.calls[f].i + 1))
    case SeeAck(f) => SetCall(s, f, s.calls[f].(pc := Offering, i := s.calls[f].i + 1))
    case Cancel(f) => SetCall(s, f, s.calls[f].(pc := Returned(false)))
    case Finish(f) => SetCall(s, f, s.calls[f].(pc := Returned(true)))
  }

  // ----- the invariant -----

  /** A connection that has lost nothing is behind by at most the chunk it is handling. */
  ghost predicate ConnInv(conn: Conn) {
    !conn.lost ==>
      conn.read == conn.fed + if conn.pc.AtSelect? || conn.pc.Serving? || conn.pc.Ended? then 0 else 1
  }

  /** What the connection had read when the call began has been fed. */
  ghost predicate Passed(conns: map<nat, Conn>, marks: map<nat, nat>, c: nat) {
    c in conns && c in marks && (conns[c].lost || marks[c] <= conns[c].fed)
  }

  ghost predicate Marked(conns: map<nat, Conn>, marks: map<nat, nat>, c: nat) {
    c in conns && c in marks && marks[c] <= conns[c].read
  }

  ghost predicate CallInv(conns: map<nat, Conn>, call: Call) {
    && call.i <= |call.conns|
    && (forall j :: 0 <= j < |call.conns| ==> Marked(conns, call.marks, call.conns[j]))
    && (forall j :: 0 <= j < call.i ==> Passed(conns, call.marks, call.conns[j]))
    && (call.pc == Waiting(true) && call.i < |call.conns| ==> Passed(conns, call.marks, call.conns[call.i]))
    && (call.pc == Returned(true) ==> call.i == |call.conns|)
  }

  /** Only a connection that has ended is no longer active. */
  ghost predicate Leaving(s: State) {
    forall c :: c in s.conns && c !in s.active ==> s.conns[c].pc.Ended?
  }

  ghost predicate Inv(s: State) {
    && s.active <= s.conns.Keys && Leaving(s)
    && (forall c :: c in s.conns ==> ConnInv(s.conns[c]))
    && (forall f :: f in s.calls ==> CallInv(s.conns, s.calls[f]))
  }

  /** Connections only ever read and feed more, and stay lost. */
  ghost predicate Grows(a: map<nat, Conn>, b: map<nat, Conn>) {
    forall c :: c in a ==> c in b && a[c].read <= b[c].read && a[c].fed <= b[c].fed && (a[c].lost ==> b[c].lost)
  }

  lemma CallInvGrows(a: map<nat, Conn>, b: map<nat, Conn>, call: Call)
    requires CallInv(a, call) && Grows(a, b)
    ensures CallInv(b, call)
  {
    forall j | 0 <= j < |call.conns| ensures Marked(b, call.marks, call.conns[j]) {
      assert Marked(a, call.marks, call.conns[j]);
    }
    forall j | 0 <= j < |call.conns| && Passed(a, call.marks, call.conns[j])
      ensures Passed(b, call.marks, call.conns[j])
    { }
  }

  lemma ConnsGrow(s: State, step: Step)
    requires Inv(s) && Enabled(s, step)
    ensures Grows(s.conns, Do(s, step).conns)
    ensures forall c :: c in Do(s, step).conns ==> ConnInv(Do(s, step).conns[c])
    ensures Do(s, step).active <= Do(s, step).conns.Keys
  {
    match step
    case Unregister(_) =>
    case Begin(_, _) =>
    case Accept(f) => assert ConnInv(s.conns[Current(s, f)]);
    case SkipEnded(_) =>
    case SeeAck(_) =>
    case Cancel(_) =>
    case Finish(_) =>
    case Register(_) =>
    case _ => assert ConnInv(s.conns[step.c]);
  }

  /** The calls after the step satisfy the invariant over the connections after it. */
  lemma CallsKept(s: State, step: Step, f: nat)
    requires Inv(s) && Enabled(s, step) && f in Do(s, step).calls
    ensures CallInv(Do(s, step).conns, Do(s, step).calls[f])
  {
    ConnsGrow(s, step);
    var t := Do(s, step);
    if f in s.calls { CallInvGrows(s.conns, t.conns, s.calls[f]); }
    match step
    case Begin(g, conns) =>
      if f == g {
        forall j | 0 <= j < |conns| ensures Marked(t.conns, t.calls[f].marks, conns[j]) { assert conns[j] in conns; }
      }
    case WriteFails(c) =>
      if f in s.calls && t.calls[f] != s.calls[f] { Acknowledged(s, t, c, f); }
    case FlushOver(c) =>
      if f in s.calls && t.calls[f] != s.calls[f] { Acknowledged(s, t, c, f); }
    case SkipEnded(g) =>
      if f == g {
        var call := s.calls[f];
        assert Marked(s.conns, call.marks, call.conns[call.i]) && ConnInv(s.conns[call.conns[call.i]]);
      }
    case _ =>
  }

  lemma Acknowledged(s: State, t: State, c: nat, f: nat)
    requires f in s.calls && CallInv(t.conns, s.calls[f]) && c in t.conns && ConnInv(t.conns[c])
    requires t.conns[c].pc.AtSelect?
    requires f in t.calls && t.calls == Acknowledge(s.calls, c, f) && t.calls[f] != s.calls[f]
    ensures CallInv(t.conns, t.calls[f])
  {
    var call := s.calls[f];
    assert call.conns[call.i] == c && Marked(t.conns, call.marks, c);
    assert Passed(t.conns, call.marks, c);
  }

  lemma LeavingKept(s: State, step: Step)
    requires Inv(s) && Enabled(s, step)
    ensures Leaving(Do(s, step))
  {
  }

  lemma InvKept(s: State, step: Step)
    requires Inv(s) && Enabled(s, step)
    ensures Inv(Do(s, step))
  {
    ConnsGrow(s, step);
    LeavingKept(s, step);
    forall f | f in Do(s, step).calls ensures CallInv(Do(s, step).conns, Do(s, step).calls[f]) {
      CallsKept(s, step, f);
    }
  }

  // ----- runs -----

  ghost predicate Goes(s: State, step: Step, t: State) {
    s.active <= s.conns.Keys && Enabled(s, step) && t == Do(s, step)
  }

  ghost predicate IsRun(run: seq<State>, steps: seq<Step>) {
    IsPath(Goes, run, steps) && run[0] == INITIAL
  }

  lemma RunInv(run: seq<State>, steps: seq<Step>, k: nat)
    requires IsRun(run, steps) && k < |run|
    ensures Inv(run[k])
  {
    forall s, step, t | Goes(s, step, t) && Inv(s) ensures Inv(t) { InvKept(s, step); }
    InvHolds(Goes, Inv, run, steps, k);
  }

  /** The call f that begins at step j is the one still on record at k. */
  ghost predicate SameCall(steps: seq<Step>, f: nat, j: nat, k: nat) {
    && j < k <= |steps| && steps[j].Begin? && steps[j].f == f
    && forall m :: j < m < k && steps[m].Begin? ==> steps[m].f != f
  }

  lemma {:induction false} CallKept(run: seq<State>, steps: seq<Step>, f: nat, j: nat, k: nat)
    requires IsRun(run, steps) && SameCall(steps, f, j, k)
    ensures f in run[k].calls && run[j].active <= run[j].conns.Keys
    ensures run[k].calls[f].marks == Marks(run[j]) && Enumerates(run[k].calls[f].conns, run[j].active)
    decreases k
  {
    assert Goes(run[j], steps[j], run[j + 1]);
    if k > j + 1 {
      CallKept(run, steps, f, j, k - 1);
      assert Goes(run[k - 1], steps[k - 1], run[k]);
    }
  }

  /** In every interleaving, when Flush has returned nil, each connection has fed to its parser
      every chunk it had read when Flush was called, unless a write to its server has failed. */
  lemma FlushFeedsEverythingRead(run: seq<State>, steps: seq<Step>, f: nat, j: nat, k: nat, c: nat)
    requires IsRun(run, steps) && SameCall(steps, f, j, k)
    requires f in run[k].calls && run[k].calls[f].pc == Returned(true)
    requires c in run[j].conns
    ensures c in run[k].conns
    ensures run[k].conns[c].lost || run[j].conns[c].read <= run[k].conns[c].fed
  {
    RunInv(run, steps, j);
    RunGrows(run, steps, j, k);
    assert ConnInv(run[j].conns[c]);
    if c in run[j].active {
      CallKept(run, steps, f, j, k);
      RunInv(run, steps, k);
      var call := run[k].calls[f];
      assert CallInv(run[k].conns, call);
      var m :| 0 <= m < |call.conns| && call.conns[m] == c;
      assert Passed(run[k].conns, call.marks, call.conns[m]);
    }
  }

  lemma RunGrows(run: seq<State>, steps: seq<Step>, j: nat, k: nat)
    requires IsRun(run, steps) && j <= k < |run|
    ensures Grows(run[j].conns, run[k].conns)
  {
    var conns := seq(|run|, m requires 0 <= m < |run| => run[m].conns);
    forall m | 0 <= m < |steps| ensures Grows(conns[m], conns[m + 1]) {
      RunInv(run, steps, m);
      GoingGrows(run[m], steps[m], run[m + 1]);
    }
    forall a, b, c | Grows(a, b) && Grows(b, c) ensures Grows(a, c) { GrowsOn(a, b, c); }
    HoldsThroughout(Grows, conns, j, k);
  }

  lemma GoingGrows(s: State, step: Step, t: State)
    requires Inv(s) && Goes(s, step, t)
    ensures Grows(s.conns, t.conns)
  {
    ConnsGrow(s, step);
  }

  lemma GrowsOn(a: map<nat, Conn>, b: map<nat, Conn>, c: map<nat, Conn>)
    requires Grows(a, b) && Grows(b, c)
    ensures Grows(a, c)
  {
  }

  // ----- why the handshake is needed -----

  lemma Go(s: State, step: Step) returns (t: State)
    requires Leads(Goes, INITIAL, s) && s.active <= s.conns.Keys && Enabled(s, step)
    ensures t == Do(s, step) && Leads(Goes, INITIAL, t)
  {
    t := Do(s, step);
    GoOn(Goes, INITIAL, s, step, t);
  }

  /** A chunk may have been read and not yet fed when Flush is called. */
  lemma ReadNeedNotBeFed() returns (s: State)
    ensures Leads(Goes, INITIAL, s)
    ensures 0 in s.active && 0 in s.conns && !s.conns[0].lost && s.conns[0].fed < s.conns[0].read
    ensures 0 in s.calls && s.calls[0].pc == Offering
  {
    Stay(Goes, INITIAL);
    s := Go(INITIAL, Register(0));
    s := Go(s, ReadChunk(0));
    assert Enumerates([0], s.active);
    s := Go(s, Begin(0, [0]));
  }
}
