/** Replaying records: one record with retries, and the pool that replays all of them, one after
    the other or by concurrent workers that take indices from a job channel. */
module WorkerPool {
  import opened Effects
  import opened Records
  import opened Runs

  /** Building a request and sending it: what can come of it. */
  datatype Attempt = BuildFails | SendFails | ReadFails | Responds(response: Response)

  datatype Result = Result(original: Record, replayed: Record, failed: bool)

  // ----- one record -----

  /** The attempt that decides the result, when the one at k is next and retries remain. */
  function Deciding(attempts: seq<Attempt>, k: nat, retries: nat): (d: nat)
    requires k + retries < |attempts|
    ensures k <= d <= k + retries
    decreases retries
  {
    if attempts[k] == SendFails && retries > 0 then Deciding(attempts, k + 1, retries - 1) else k
  }

  /** Replays one record; attempts says what each attempt would come to. sent is the number of
      requests sent. */
  method ReplayOne(original: Record, attempts: seq<Attempt>, retryCount: nat) returns (result: Result, sent: nat)
    requires retryCount < |attempts|
    ensures result.original == original && result.replayed.sequence == original.sequence
    ensures result.failed <==> !attempts[Deciding(attempts, 0, retryCount)].Responds?
    ensures result.failed <==> result.replayed.error != ""
    ensures !result.failed ==> result.replayed.response == attempts[Deciding(attempts, 0, retryCount)].response
    ensures sent == Deciding(attempts, 0, retryCount)
      + (if attempts[Deciding(attempts, 0, retryCount)] == BuildFails then 0 else 1)
  {
    sent := 0;
    if attempts[0] == BuildFails {
      return Result(original, Record("replay", original.sequence, "build failed", NO_RESPONSE, []), true), 0;
    }
    sent := 1;
    var last := attempts[0];
    var attempt := 0;
    while last == SendFails && attempt < retryCount
      invariant 0 <= attempt <= retryCount && last == attempts[attempt]
      invariant last != BuildFails && sent == attempt + 1
      invariant Deciding(attempts, 0, retryCount) == Deciding(attempts, attempt, retryCount - attempt)
    {
      last := attempts[attempt + 1];
      attempt := attempt + 1;
      if last == BuildFails {
        break;
      }
      sent := sent + 1;
    }
    if last.Responds? {
      return Result(original, Record("replay", original.sequence, "", last.response, []), false), sent;
    }
    return Result(original, Record("replay", original.sequence, "request failed", NO_RESPONSE, []), true), sent;
  }

  /** It is the first that does not fail to send, or the last that is allowed. */
  lemma {:induction false} DecidingIs(attempts: seq<Attempt>, k: nat, retries: nat, d: nat)
    requires k <= d <= k + retries < |attempts|
    requires forall j :: k <= j < d ==> attempts[j] == SendFails
    requires attempts[d] != SendFails || d == k + retries
    ensures Deciding(attempts, k, retries) == d
    decreases retries
  {
    if k < d { DecidingIs(attempts, k + 1, retries - 1, d); }
  }

  predicate OnlySendFailures(attempts: seq<Attempt>, k: nat, d: nat)
    requires d <= |attempts|
  {
    forall j :: k <= j < d ==> attempts[j] == SendFails
  }

  /** A record is replayed without error exactly when one of the first 1 + retryCount attempts
      succeeds after nothing but failures to send. */
  lemma {:induction false} DecidingSucceedsIff(attempts: seq<Attempt>, k: nat, retries: nat)
    requires k + retries < |attempts|
    ensures attempts[Deciding(attempts, k, retries)].Responds?
      <==> exists d :: k <= d <= k + retries && attempts[d].Responds? && OnlySendFailures(attempts, k, d)
    decreases retries
  {
    if attempts[k] == SendFails && retries > 0 {
      DecidingSucceedsIff(attempts, k + 1, retries - 1);
    }
  }

  // ----- all records, concurrently -----

  datatype Worker = Idle | Busy(index: nat) | Finished

  datatype MainPc = Filling | Waiting | Returned

  datatype State = State(
    main: MainPc,
    queued: nat,                  // jobs sent so far
    jobs: seq<nat>,               // the job channel
    closed: bool,
    workers: seq<Worker>,
    results: seq<Option<Result>>,
    started: seq<nat>)            // history: the index of every replay begun

  datatype Step =
    | SendJob
    | CloseJobs
    | Return
    | Take(w: nat)
    | Complete(w: nat, replayed: Record, failed: bool)
    | Exit(w: nat)

  ghost function Start(records: seq<Record>, concurrency: nat): State {
    State(Filling, 0, [], false, seq(concurrency, w => Idle), seq(|records|, i => None), [])
  }

  ghost predicate Enabled(records: seq<Record>, s: State, step: Step) {
    match step
    case SendJob => s.main == Filling && s.queued < |records|
    case CloseJobs => s.main == Filling && s.queued == |records|
    case Return => s.main == Waiting && forall w :: 0 <= w < |s.workers| ==> s.workers[w] == Finished
    case Take(w) => w < |s.workers| && s.workers[w] == Idle && s.jobs != []
    case Complete(w, replayed, _) =>
      && w < |s.workers| && s.workers[w].Busy? && s.workers[w].index < |records| && |s.results| == |records|
      && replayed.sequence == records[s.workers[w].index].sequence
    case Exit(w) => w < |s.workers| && s.workers[w] == Idle && s.jobs == [] && s.closed
  }

  ghost function Do(records: seq<Record>, s: State, step: Step): State
    requires Enabled(records, s, step)
  {
    match step
    case SendJob => s.(jobs := s.jobs + [s.queued], queued := s.queued + 1)
    case CloseJobs => s.(closed := true, main := Waiting)
    case Return => s.(main := Returned)
    case Take(w) =>
      s.(jobs := s.jobs[1..], workers := s.workers[w := Busy(s.jobs[0])], started := s.started + [s.jobs[0]])
    case Complete(w, replayed, failed) =>
      var i := s.workers[w].index;
      s.(results := s.results[i := Some(Result(records[i], replayed, failed))], workers := s.workers[w := Idle])
    case Exit(w) => s.(workers := s.workers[w := Finished])
  }

  // ----- the invariant -----

  function Range(lo: nat, hi: nat): seq<nat>
    requires lo <= hi
  {
    seq(hi - lo, i requires 0 <= i < hi - lo => lo + i)
  }

  /** Jobs are taken in order, each once. */
  ghost predicate InOrder(s: State) {
    && s.queued == |s.started| + |s.jobs|
    && s.started == Range(0, |s.started|)
    && s.jobs == Range(|s.started|, s.queued)
  }

  /** A started job is in the hands of one worker, or has its result. */
  ghost predicate Placed(workers: seq<Worker>, results: seq<Option<Result>>, started: nat) {
    && (forall w :: 0 <= w < |workers| && workers[w].Busy? ==>
          workers[w].index < started && workers[w].index < |results| && results[workers[w].index] == None)
    && (forall v, w :: 0 <= v < w < |workers| && workers[v].Busy? && workers[w].Busy? ==>
          workers[v].index != workers[w].index)
    && (forall i :: 0 <= i < started && i < |results| ==> results[i].Some? || Held(workers, i))
    && (forall i :: 0 <= i < |results| && results[i].Some? ==> i < started)
  }

  ghost predicate Held(workers: seq<Worker>, i: nat) {
    exists w :: 0 <= w < |workers| && workers[w] == Busy(i)
  }

  /** Every result is that of the record at its own index. */
  ghost predicate OwnRecord(records: seq<Record>, results: seq<Option<Result>>) {
    && |results| == |records|
    && forall i :: 0 <= i < |results| && results[i].Some? ==>
         results[i].value.original == records[i] && results[i].value.replayed.sequence == records[i].sequence
  }

  ghost predicate Ending(records: seq<Record>, s: State) {
    && (s.closed <==> s.main != Filling)
    && (s.closed ==> s.queued == |records|)
    && s.queued <= |records|
    && (forall w :: 0 <= w < |s.workers| && s.workers[w] == Finished ==> s.closed && s.jobs == [])
    && (s.main == Returned ==> forall w :: 0 <= w < |s.workers| ==> s.workers[w] == Finished)
  }

  ghost predicate Inv(records: seq<Record>, s: State) {
    && InOrder(s)
    && Placed(s.workers, s.results, |s.started|)
    && OwnRecord(records, s.results)
    && Ending(records, s)
  }

  lemma OrderKept(records: seq<Record>, s: State, step: Step)
    requires Inv(records, s) && Enabled(records, s, step)
    ensures InOrder(Do(records, s, step))
  {
    match step
    case SendJob =>
    case Take(w) =>
      assert s.jobs[0] == |s.started|;
      assert Range(|s.started|, s.queued)[1..] == Range(|s.started| + 1, s.queued);
      assert Range(0, |s.started| + 1) == Range(0, |s.started|) + [|s.started|];
    case _ =>
  }

  lemma TakePlaced(workers: seq<Worker>, results: seq<Option<Result>>, started: nat, w: nat)
    requires Placed(workers, results, started) && w < |workers| && workers[w] == Idle && started < |results|
    ensures Placed(workers[w := Busy(started)], results, started + 1)
  {
    var after := workers[w := Busy(started)];
    forall i | 0 <= i < started + 1 && i < |results| ensures results[i].Some? || Held(after, i) {
      if i == started {
        assert after[w] == Busy(i);
      } else if results[i] == None {
        var v :| 0 <= v < |workers| && workers[v] == Busy(i);
        assert after[v] == Busy(i);
      }
    }
  }

  lemma LeavePlaced(
    workers: seq<Worker>, results: seq<Option<Result>>, after: seq<Option<Result>>, started: nat, w: nat, next: Worker)
    requires Placed(workers, results, started) && w < |workers| && !next.Busy?
    requires if workers[w].Busy? then
        workers[w].index < |results| == |after| && after[workers[w].index].Some?
        && after == results[workers[w].index := after[workers[w].index]]
      else after == results
    ensures Placed(workers[w := next], after, started)
  {
    forall i | 0 <= i < started && i < |after| ensures after[i].Some? || Held(workers[w := next], i) {
      if after[i] == None {
        var v :| 0 <= v < |workers| && workers[v] == Busy(i);
        assert workers[w := next][v] == Busy(i);
      }
    }
  }

  lemma PlacedKept(records: seq<Record>, s: State, step: Step)
    requires Inv(records, s) && Enabled(records, s, step)
    ensures var t := Do(records, s, step); Placed(t.workers, t.results, |t.started|)
  {
    var t := Do(records, s, step);
    match step
    case Take(w) =>
      assert s.jobs[0] == |s.started|;
      TakePlaced(s.workers, s.results, |s.started|, w);
    case Complete(w, _, _) => LeavePlaced(s.workers, s.results, t.results, |s.started|, w, Idle);
    case Exit(w) => LeavePlaced(s.workers, s.results, t.results, |s.started|, w, Finished);
    case _ =>
  }

  lemma InvKept(records: seq<Record>, s: State, step: Step)
    requires Inv(records, s) && Enabled(records, s, step)
    ensures Inv(records, Do(records, s, step))
  {
    OrderKept(records, s, step);
    PlacedKept(records, s, step);
  }

  ghost predicate Goes(records: seq<Record>, s: State, step: Step, t: State) {
    Enabled(records, s, step) && t == Do(records, s, step)
  }

  ghost function GoesFor(records: seq<Record>): (State, Step, State) -> bool {
    (s, step, t) => Goes(records, s, step, t)
  }

  ghost predicate IsRun(records: seq<Record>, concurrency: nat, run: seq<State>, steps: seq<Step>) {
    IsPath(GoesFor(records), run, steps) && run[0] == Start(records, concurrency)
  }

  lemma RunInv(records: seq<Record>, concurrency: nat, run: seq<State>, steps: seq<Step>, k: nat)
    requires IsRun(records, concurrency, run, steps) && k < |run|
    ensures Inv(records, run[k]) && |run[k].workers| == concurrency
  {
    var inv := s => Inv(records, s) && |s.workers| == concurrency;
    forall s, step, t | GoesFor(records)(s, step, t) && inv(s) ensures inv(t) { InvKept(records, s, step); }
    InvHolds(GoesFor(records), inv, run, steps, k);
  }

  /** For any number of workers and any schedule, when Execute returns each index has been
      replayed exactly once and each result is that of the record at its index. */
  lemma EachRecordReplayedOnce(records: seq<Record>, concurrency: nat, run: seq<State>, steps: seq<Step>, k: nat)
    requires IsRun(records, concurrency, run, steps) && k < |run|
    requires run[k].main == Returned && concurrency > 0
    ensures run[k].started == Range(0, |records|)
    ensures |run[k].results| == |records|
    ensures forall i :: 0 <= i < |records| ==> ResultOf(records, run[k].results, i)
  {
    RunInv(records, concurrency, run, steps, k);
    var s := run[k];
    assert s.workers[0] == Finished;
    forall i | 0 <= i < |records| ensures ResultOf(records, s.results, i) {
      assert s.results[i].Some? || Held(s.workers, i);
    }
  }

  ghost predicate ResultOf(records: seq<Record>, results: seq<Option<Result>>, i: nat)
    requires i < |records| == |results|
  {
    && results[i].Some? && results[i].value.original == records[i]
    && results[i].value.replayed.sequence == records[i].sequence
  }

  // ----- all records, one after the other -----

  /** attempts[i] says what each attempt at record i would come to. */
  method ExecuteSequential(records: seq<Record>, attempts: seq<seq<Attempt>>, retryCount: nat)
    returns (results: seq<Result>)
    requires |attempts| == |records| && forall i :: 0 <= i < |attempts| ==> retryCount < |attempts[i]|
    ensures |results| == |records|
    ensures forall i :: 0 <= i < |records| ==>
      && results[i].original == records[i] && results[i].replayed.sequence == records[i].sequence
      && (results[i].failed <==> !attempts[i][Deciding(attempts[i], 0, retryCount)].Responds?)
      && (!results[i].failed ==>
            results[i].replayed.response == attempts[i][Deciding(attempts[i], 0, retryCount)].response)
  {
    results := [];
    for i := 0 to |records|
      invariant |results| == i
      invariant forall k :: 0 <= k < i ==>
        && results[k].original == records[k] && results[k].replayed.sequence == records[k].sequence
        && (results[k].failed <==> !attempts[k][Deciding(attempts[k], 0, retryCount)].Responds?)
        && (!results[k].failed ==>
              results[k].replayed.response == attempts[k][Deciding(attempts[k], 0, retryCount)].response)
    {
      var result, _ := ReplayOne(records[i], attempts[i], retryCount);
      results := results + [result];
    }
  }
}
