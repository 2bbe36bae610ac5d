/** A call of FinishRequestScope that nothing interrupts, as the recorder's object performs it,
    is one of the runs of the recorder as a machine of interleaved steps. */
module SequentialFinish {
  import opened Effects
  import opened Attribution
  import opened RecorderObject
  import opened Runs
  import R = Recorder

  lemma Go(a: R.State, s: R.State, step: R.Step) returns (t: R.State)
    requires Leads(R.Goes, a, s) && R.Enabled(s, step)
    ensures t == R.Do(s, step) && Leads(R.Goes, a, t)
  {
    t := R.Do(s, step);
    GoOn(R.Goes, a, s, step, t);
  }

  /** The collector drains all that is queued; besides, only the log grows. */
  ghost predicate Drained(s: R.State, t: R.State) {
    t == s.(channel := [], scopes := AssignAll(s.scopes, s.channel), log := t.log)
  }

  lemma {:induction false} DrainAll(a: R.State, s: R.State) returns (t: R.State)
    requires Leads(R.Goes, a, s) && s.collector.Draining?
    ensures Leads(R.Goes, a, t) && Drained(s, t)
    decreases |s.channel|
  {
    if s.channel == [] {
      t := s;
    } else {
      var e, rest := s.channel[0], s.channel[1..];
      t := Go(a, s, R.DrainReceive);
      t := Go(a, t, R.DrainAttribute);
      var next := t;
      assert next == s.(channel := rest, scopes := Assign(s.scopes, e), log := next.log);
      t := DrainAll(a, next);
    }
  }

  /** With the collector idle, a call that finds its scope leads to the state in which the
      object leaves its scopes and its queue, and makes the record that it makes. */
  lemma FinishIsARun(s: R.State, q: nat, id: nat, recordedAt: int) returns (t: R.State)
    requires s.collector.Idle? && q !in s.finishers && recordedAt != 0 && id in s.scopes
    ensures Leads(R.Goes, s, t) && t.collector.Idle? && t.channel == []
    ensures q in t.finishers && t.finishers[q].pc == R.Handed
    ensures var closed := s.scopes[id := s.scopes[id].(closedAt := recordedAt)];
      && t.scopes == AssignAll(closed, s.channel) - {id}
      && |t.records| == |s.records| + 1 && t.records[..|s.records|] == s.records
      && var r := t.records[|s.records|];
        && r.scope == id && r.finisher == q && r.recordedAt == recordedAt && r.flushed
        && r.effects == s.scopes[id].effects + ClaimedBy(closed, s.channel, id)
  {
    var closed := s.scopes[id := s.scopes[id].(closedAt := recordedAt)];
    var begun := Offers(s, q, id, recordedAt);
    var ack := s.nextAck;
    t := Go(s, begun, R.Handshake(q));
    var drained := DrainAll(s, t);
    t := Go(s, drained, R.DrainEnd);
    AssignAllAppends(closed, s.channel, id);
    t := Go(s, t, R.SeeFlushed(q));
    t := Go(s, t, R.Take(q));
  }

  lemma Offers(s: R.State, q: nat, id: nat, recordedAt: int) returns (t: R.State)
    requires s.collector.Idle? && q !in s.finishers && recordedAt != 0 && id in s.scopes
    ensures Leads(R.Goes, s, t) && t.collector.Idle? && t.channel == s.channel && t.records == s.records
    ensures q in t.finishers && t.finishers[q] == R.Finisher(id, recordedAt, R.Offering(s.nextAck), 0)
    ensures t.scopes == s.scopes[id := s.scopes[id].(closedAt := recordedAt)]
  {
    Stay(R.Goes, s);
    t := Go(s, s, R.Finish(q, id, recordedAt));
    t := Go(s, t, R.Mark(q));
  }

  /** A call that does not find its scope fails and leaves scopes, queue and records alone. */
  lemma NotFoundIsARun(s: R.State, q: nat, id: nat, recordedAt: int) returns (t: R.State)
    requires q !in s.finishers && recordedAt != 0 && id !in s.scopes
    ensures Leads(R.Goes, s, t) && q in t.finishers && t.finishers[q].pc == R.Failed
    ensures t.scopes == s.scopes && t.channel == s.channel && t.records == s.records && t.collector == s.collector
  {
    Stay(R.Goes, s);
    t := Go(s, s, R.Finish(q, id, recordedAt));
    t := Go(s, t, R.Mark(q));
  }
}
