/** Sequential replay with side-effect capture: after each request the effects that have
    arrived are matched against the request's time window. */
module ReplayWindows {
  import opened Effects

  /** When a replayed request started and finished. */
  datatype Window = Window(startedAt: int, finishedAt: int)

  datatype Slot = Early | Inside | Later

  function SlotOf(w: Window, timestamp: int): Slot {
    if timestamp < w.startedAt then Early
    else if timestamp <= w.finishedAt then Inside
    else Later
  }

  function Select(effects: seq<Effect>, w: Window, slot: Slot): seq<Effect> {
    if effects == [] then []
    else
      var last := effects[|effects| - 1];
      var before := Select(effects[..|effects| - 1], w, slot);
      if SlotOf(w, last.timestamp) == slot then before + [last] else before
  }

  // ----- where an effect ends up -----

  datatype Fate = Attached(window: nat) | Dropped(window: nat) | Left

  /** What becomes of an effect that is first looked at in window i. */
  function FateFrom(windows: seq<Window>, i: nat, timestamp: int): (fate: Fate)
    ensures !fate.Left? ==> i <= fate.window < |windows|
    decreases |windows| - i
  {
    if i >= |windows| then Left
    else
      match SlotOf(windows[i], timestamp)
      case Early => Dropped(i)
      case Inside => Attached(i)
      case Later => FateFrom(windows, i + 1, timestamp)
  }

  /** An effect and the window at which it has first arrived; the last batch arrives after
      all windows. */
  datatype Arrival = Arrival(batch: nat, effect: Effect)

  function FateOf(windows: seq<Window>, x: Arrival): Fate {
    FateFrom(windows, x.batch, x.effect.timestamp)
  }

  function Tag(batch: nat, effects: seq<Effect>): seq<Arrival> {
    seq(|effects|, i requires 0 <= i < |effects| => Arrival(batch, effects[i]))
  }

  /** The first n batches, in arrival order. */
  function Arrived(batches: seq<seq<Effect>>, n: nat): seq<Arrival>
    requires n <= |batches|
  {
    if n == 0 then [] else Arrived(batches, n - 1) + Tag(n - 1, batches[n - 1])
  }

  function WithFate(xs: seq<Arrival>, windows: seq<Window>, fate: Fate): seq<Effect> {
    if xs == [] then []
    else
      var last := xs[|xs| - 1];
      var before := WithFate(xs[..|xs| - 1], windows, fate);
      if FateOf(windows, last) == fate then before + [last.effect] else before
  }

  /** Neither attached nor dropped before window i. */
  predicate IsOpen(windows: seq<Window>, x: Arrival, i: nat) {
    var fate := FateOf(windows, x);
    fate.Left? || i <= fate.window
  }

  function OpenAt(xs: seq<Arrival>, windows: seq<Window>, i: nat): seq<Effect> {
    if xs == [] then []
    else
      var last := xs[|xs| - 1];
      var before := OpenAt(xs[..|xs| - 1], windows, i);
      if IsOpen(windows, last, i) then before + [last.effect] else before
  }

  // ----- the engine -----

  class Engine {
    var pending: seq<Effect>
    var channel: seq<Effect>
    ghost var dropped: seq<seq<Effect>> // window by window

    constructor ()
      ensures pending == [] && channel == [] && dropped == []
    {
      pending, channel, dropped := [], [], [];
    }

    method DrainSideEffects()
      modifies this`pending, this`channel
      ensures pending == old(pending + channel) && channel == []
    {
      ghost var total := pending + channel;
      while channel != []
        invariant pending + channel == total
        decreases |channel|
      {
        var effect := channel[0];
        assert channel == [effect] + channel[1..];
        channel := channel[1..];
        pending := pending + [effect];
      }
      assert pending + [] == pending;
    }

    method TakeSideEffectsWindow(w: Window) returns (matched: seq<Effect>)
      modifies this`pending, this`channel, this`dropped
      ensures var all := old(pending + channel);
        && matched == Select(all, w, Inside) && pending == Select(all, w, Later)
        && dropped == old(dropped) + [Select(all, w, Early)] && channel == []
    {
      DrainSideEffects();
      matched := [];
      var kept := [];
      ghost var early: seq<Effect> := [];
      for i := 0 to |pending|
        invariant pending == old(pending + channel)
        invariant matched == Select(pending[..i], w, Inside) && kept == Select(pending[..i], w, Later)
        invariant early == Select(pending[..i], w, Early)
      {
        var effect := pending[i];
        assert pending[..i + 1][..i] == pending[..i];
        if effect.timestamp < w.startedAt {
          early := early + [effect];
        } else if effect.timestamp <= w.finishedAt {
          matched := matched + [effect];
        } else {
          kept := kept + [effect];
        }
      }
      assert pending[..|pending|] == pending;
      dropped := dropped + [early];
      pending := kept;
    }

    method DropPendingSideEffects()
      modifies this`pending, this`channel, this`dropped
      ensures pending == [] && channel == [] && dropped == old(dropped) + [old(pending + channel)]
    {
      DrainSideEffects();
      dropped := dropped + [pending];
      pending := [];
    }

    /** Replays one request per window; batches[i] is what arrives on the channel before window
        i is closed, and the last batch what arrives before the leftovers are dropped. Each
        effect goes where its fate says, in arrival order. */
    method ExecuteSequentialWithSideEffects(windows: seq<Window>, batches: seq<seq<Effect>>)
      returns (results: seq<seq<Effect>>)
      requires |batches| == |windows| + 1
      requires pending == [] && channel == [] && dropped == []
      modifies this
      ensures var all := Arrived(batches, |batches|);
        && |results| == |windows| && |dropped| == |windows| + 1
        && (forall k :: 0 <= k < |windows| ==> Settles(results[k], dropped[k], all, windows, k))
        && dropped[|windows|] == WithFate(all, windows, Left)
    {
      results := [];
      NothingYet(batches, windows);
      for i := 0 to |windows|
        invariant SoFar(results, dropped, pending, batches, windows, i) && channel == []
      {
        channel := batches[i];
        BatchJoins(batches, windows, i);
        var matched := TakeSideEffectsWindow(windows[i]);
        WindowDone(batches, windows, i);
        results := results + [matched];
      }
      channel := batches[|windows|];
      BatchJoins(batches, windows, |windows|);
      LeftAreOpen(Arrived(batches, |batches|), windows);
      AllDone(results, dropped, pending, batches, windows);
      DropPendingSideEffects();
    }
  }

  // ----- bookkeeping -----

  /** What the first i windows have attached and dropped, and what is pending after them. */
  ghost predicate SoFar(
    results: seq<seq<Effect>>, dropped: seq<seq<Effect>>, pending: seq<Effect>,
    batches: seq<seq<Effect>>, windows: seq<Window>, i: nat)
    requires i <= |batches|
  {
    && |results| == |dropped| == i
    && pending == OpenAt(Arrived(batches, i), windows, i)
    && forall k :: 0 <= k < i ==> Settles(results[k], dropped[k], Arrived(batches, k + 1), windows, k)
  }

  ghost predicate Settles(
    result: seq<Effect>, dropped: seq<Effect>, xs: seq<Arrival>, windows: seq<Window>, k: nat)
  {
    result == WithFate(xs, windows, Attached(k)) && dropped == WithFate(xs, windows, Dropped(k))
  }

  lemma NothingYet(batches: seq<seq<Effect>>, windows: seq<Window>)
    ensures SoFar([], [], [], batches, windows, 0)
  {
  }

  /** The matching of window i, in terms of the fates. */
  lemma WindowDone(batches: seq<seq<Effect>>, windows: seq<Window>, i: nat)
    requires i < |windows| < |batches|
    ensures var xs := Arrived(batches, i + 1); var open := OpenAt(xs, windows, i);
      && Settles(Select(open, windows[i], Inside), Select(open, windows[i], Early), xs, windows, i)
      && Select(open, windows[i], Later) == OpenAt(xs, windows, i + 1)
  {
    BatchesSoFar(batches, i + 1);
    WindowSettles(Arrived(batches, i + 1), windows, i);
  }

  lemma AllDone(
    results: seq<seq<Effect>>, dropped: seq<seq<Effect>>, pending: seq<Effect>,
    batches: seq<seq<Effect>>, windows: seq<Window>)
    requires |batches| == |windows| + 1 && SoFar(results, dropped, pending, batches, windows, |windows|)
    ensures forall k :: 0 <= k < |windows| ==>
      Settles(results[k], dropped[k], Arrived(batches, |batches|), windows, k)
  {
    forall k | 0 <= k < |windows|
      ensures Settles(results[k], dropped[k], Arrived(batches, |batches|), windows, k)
    {
      assert Settles(results[k], dropped[k], Arrived(batches, k + 1), windows, k);
      SettlesLater(results[k], dropped[k], batches, windows, k);
    }
  }

  lemma SettlesLater(
    result: seq<Effect>, dropped: seq<Effect>, batches: seq<seq<Effect>>, windows: seq<Window>, k: nat)
    requires k < |windows| < |batches| && Settles(result, dropped, Arrived(batches, k + 1), windows, k)
    ensures Settles(result, dropped, Arrived(batches, |batches|), windows, k)
  {
    LaterBatchesDoNotCount(batches, windows, k + 1, |batches|, Attached(k));
    LaterBatchesDoNotCount(batches, windows, k + 1, |batches|, Dropped(k));
  }

  lemma {:induction false} OpenSplit(xs: seq<Arrival>, ys: seq<Arrival>, windows: seq<Window>, i: nat)
    ensures OpenAt(xs + ys, windows, i) == OpenAt(xs, windows, i) + OpenAt(ys, windows, i)
    decreases |ys|
  {
    if ys == [] {
      assert xs + ys == xs;
    } else {
      var init := ys[..|ys| - 1];
      assert (xs + ys)[..|xs + ys| - 1] == xs + init;
      OpenSplit(xs, init, windows, i);
      var a, b, e := OpenAt(xs, windows, i), OpenAt(init, windows, i), ys[|ys| - 1].effect;
      assert (a + b) + [e] == a + (b + [e]);
    }
  }

  lemma {:induction false} NewBatchIsOpen(effects: seq<Effect>, windows: seq<Window>, i: nat)
    ensures OpenAt(Tag(i, effects), windows, i) == effects
    decreases |effects|
  {
    if effects != [] {
      var init := effects[..|effects| - 1];
      assert Tag(i, effects)[..|effects| - 1] == Tag(i, init);
      NewBatchIsOpen(init, windows, i);
    }
  }

  lemma BatchJoins(batches: seq<seq<Effect>>, windows: seq<Window>, i: nat)
    requires i < |batches|
    ensures OpenAt(Arrived(batches, i + 1), windows, i) == OpenAt(Arrived(batches, i), windows, i) + batches[i]
  {
    OpenSplit(Arrived(batches, i), Tag(i, batches[i]), windows, i);
    NewBatchIsOpen(batches[i], windows, i);
  }

  lemma {:induction false} BatchesSoFar(batches: seq<seq<Effect>>, n: nat)
    requires n <= |batches|
    ensures forall x :: x in Arrived(batches, n) ==> x.batch < n
    decreases n
  {
    if n > 0 { BatchesSoFar(batches, n - 1); }
  }

  /** An effect still open at window i meets its fate from there on. */
  lemma {:induction false} OpenMeetsFate(windows: seq<Window>, batch: nat, timestamp: int, i: nat)
    requires batch <= i <= |windows|
    requires var fate := FateFrom(windows, batch, timestamp); fate.Left? || i <= fate.window
    ensures FateFrom(windows, batch, timestamp) == FateFrom(windows, i, timestamp)
    decreases i - batch
  {
    if batch < i { OpenMeetsFate(windows, batch + 1, timestamp, i); }
  }

  lemma FateHere(windows: seq<Window>, x: Arrival, i: nat)
    requires x.batch <= i < |windows|
    ensures var slot := SlotOf(windows[i], x.effect.timestamp); var fate := FateOf(windows, x);
      && (fate == Attached(i) <==> IsOpen(windows, x, i) && slot == Inside)
      && (fate == Dropped(i) <==> IsOpen(windows, x, i) && slot == Early)
      && (IsOpen(windows, x, i + 1) <==> IsOpen(windows, x, i) && slot == Later)
  {
    if IsOpen(windows, x, i) { OpenMeetsFate(windows, x.batch, x.effect.timestamp, i); }
  }

  lemma SelectSnoc(effects: seq<Effect>, last: Effect, w: Window, slot: Slot)
    ensures Select(effects + [last], w, slot)
      == if SlotOf(w, last.timestamp) == slot then Select(effects, w, slot) + [last] else Select(effects, w, slot)
  {
    assert (effects + [last])[..|effects|] == effects;
  }

  /** What the matching of window i does to the open effects. */
  lemma {:induction false} WindowSettles(xs: seq<Arrival>, windows: seq<Window>, i: nat)
    requires i < |windows| && forall x :: x in xs ==> x.batch <= i
    ensures Select(OpenAt(xs, windows, i), windows[i], Inside) == WithFate(xs, windows, Attached(i))
    ensures Select(OpenAt(xs, windows, i), windows[i], Early) == WithFate(xs, windows, Dropped(i))
    ensures Select(OpenAt(xs, windows, i), windows[i], Later) == OpenAt(xs, windows, i + 1)
    decreases |xs|
  {
    if xs != [] {
      var init, last := xs[..|xs| - 1], xs[|xs| - 1];
      assert forall x :: x in init ==> x in xs;
      WindowSettles(init, windows, i);
      FateHere(windows, last, i);
      if IsOpen(windows, last, i) {
        var open := OpenAt(init, windows, i);
        SelectSnoc(open, last.effect, windows[i], Inside);
        SelectSnoc(open, last.effect, windows[i], Early);
        SelectSnoc(open, last.effect, windows[i], Later);
      }
    }
  }

  lemma {:induction false} LeftAreOpen(xs: seq<Arrival>, windows: seq<Window>)
    ensures OpenAt(xs, windows, |windows|) == WithFate(xs, windows, Left)
    decreases |xs|
  {
    if xs != [] { LeftAreOpen(xs[..|xs| - 1], windows); }
  }

  lemma {:induction false} FateSplit(xs: seq<Arrival>, ys: seq<Arrival>, windows: seq<Window>, fate: Fate)
    requires forall y :: y in ys ==> FateOf(windows, y) != fate
    ensures WithFate(xs + ys, windows, fate) == WithFate(xs, windows, fate)
    decreases |ys|
  {
    if ys == [] {
      assert xs + ys == xs;
    } else {
      var init := ys[..|ys| - 1];
      assert (xs + ys)[..|xs + ys| - 1] == xs + init;
      FateSplit(xs, init, windows, fate);
    }
  }

  lemma {:induction false} LaterBatchesDoNotCount(
    batches: seq<seq<Effect>>, windows: seq<Window>, m: nat, n: nat, fate: Fate)
    requires m <= n <= |batches| && !fate.Left? && fate.window < m
    ensures WithFate(Arrived(batches, n), windows, fate) == WithFate(Arrived(batches, m), windows, fate)
    decreases n
  {
    if m < n {
      LaterBatchesDoNotCount(batches, windows, m, n - 1, fate);
      FateSplit(Arrived(batches, n - 1), Tag(n - 1, batches[n - 1]), windows, fate);
    }
  }

  // ----- what the fates mean -----

  ghost predicate Ordered(windows: seq<Window>) {
    forall i :: 0 <= i < |windows| ==> windows[i].startedAt <= windows[i].finishedAt
  }

  /** The least window from a on that has not finished before the effect. */
  ghost predicate IsFirstNotBefore(windows: seq<Window>, a: nat, timestamp: int, i: nat) {
    && a <= i < |windows| && timestamp <= windows[i].finishedAt
    && forall j :: a <= j < i ==> windows[j].finishedAt < timestamp
  }

  /** An effect drained at window a is attached to the least later window that has not finished
      before it, if that window had started by then; otherwise it is dropped, there or at the end. */
  lemma {:induction false} FateIsFirstNotBefore(windows: seq<Window>, a: nat, timestamp: int, i: nat)
    requires Ordered(windows)
    ensures FateFrom(windows, a, timestamp) == Attached(i)
      <==> IsFirstNotBefore(windows, a, timestamp, i) && windows[i].startedAt <= timestamp
    ensures FateFrom(windows, a, timestamp) == Dropped(i)
      <==> IsFirstNotBefore(windows, a, timestamp, i) && timestamp < windows[i].startedAt
    ensures FateFrom(windows, a, timestamp) == Left
      <==> forall j :: a <= j < |windows| ==> windows[j].finishedAt < timestamp
    decreases |windows| - a
  {
    if a < |windows| {
      FateIsFirstNotBefore(windows, a + 1, timestamp, i);
      assert windows[a].startedAt <= windows[a].finishedAt;
    }
  }

  ghost predicate Disjoint(windows: seq<Window>) {
    forall i, j :: 0 <= i < j < |windows| ==> windows[i].finishedAt < windows[j].startedAt
  }

  /** When windows do not overlap, an effect of window k that is drained by then goes to k. */
  lemma DisjointWindowsClaimTheirOwn(windows: seq<Window>, a: nat, k: nat, timestamp: int)
    requires Ordered(windows) && Disjoint(windows) && a <= k < |windows|
    requires windows[k].startedAt <= timestamp <= windows[k].finishedAt
    ensures FateFrom(windows, a, timestamp) == Attached(k)
  {
    FateIsFirstNotBefore(windows, a, timestamp, k);
  }

  function EffectsOf(xs: seq<Arrival>): seq<Effect> {
    seq(|xs|, i requires 0 <= i < |xs| => xs[i].effect)
  }

  /** How often e is among the arrivals with a fate. */
  ghost function Times(xs: seq<Arrival>, windows: seq<Window>, fate: Fate, e: Effect): nat {
    multiset(WithFate(xs, windows, fate))[e]
  }

  /** How often e is attached or dropped in the first n windows. */
  ghost function SettledTimes(xs: seq<Arrival>, windows: seq<Window>, n: nat, e: Effect): nat {
    if n == 0 then 0 else
      var here := Times(xs, windows, Attached(n - 1), e) + Times(xs, windows, Dropped(n - 1), e);
      SettledTimes(xs, windows, n - 1, e) + here
  }

  function One(condition: bool): nat {
    if condition then 1 else 0
  }

  lemma TimesSnoc(init: seq<Arrival>, last: Arrival, windows: seq<Window>, fate: Fate, e: Effect)
    ensures Times(init + [last], windows, fate, e)
      == Times(init, windows, fate, e) + One(FateOf(windows, last) == fate && last.effect == e)
  {
    assert (init + [last])[..|init|] == init;
  }

  lemma {:induction false} SettledSnoc(init: seq<Arrival>, last: Arrival, windows: seq<Window>, n: nat, e: Effect)
    ensures var fate := FateOf(windows, last);
      SettledTimes(init + [last], windows, n, e)
        == SettledTimes(init, windows, n, e) + One(!fate.Left? && fate.window < n && last.effect == e)
    decreases n
  {
    if n > 0 {
      SettledSnoc(init, last, windows, n - 1, e);
      TimesSnoc(init, last, windows, Attached(n - 1), e);
      TimesSnoc(init, last, windows, Dropped(n - 1), e);
    }
  }

  lemma {:induction false} NothingSettled(windows: seq<Window>, n: nat, e: Effect)
    ensures SettledTimes([], windows, n, e) == 0
    decreases n
  {
    if n > 0 { NothingSettled(windows, n - 1, e); }
  }

  /** Every arrival is attached once, or dropped once, or left over: never two of these. */
  lemma {:induction false} EachArrivalIsSettledOnce(xs: seq<Arrival>, windows: seq<Window>, e: Effect)
    ensures SettledTimes(xs, windows, |windows|, e) + Times(xs, windows, Left, e) == multiset(EffectsOf(xs))[e]
    decreases |xs|
  {
    if xs == [] {
      NothingSettled(windows, |windows|, e);
    } else {
      var init, last := xs[..|xs| - 1], xs[|xs| - 1];
      EachArrivalIsSettledOnce(init, windows, e);
      assert xs == init + [last];
      SettledSnoc(init, last, windows, |windows|, e);
      TimesSnoc(init, last, windows, Left, e);
      assert EffectsOf(xs) == EffectsOf(init) + [last.effect];
    }
  }

  /** Effects with the same fate keep their order. */
  lemma WithFateInTurn(a: seq<Arrival>, b: seq<Arrival>, x: Arrival, windows: seq<Window>, fate: Fate)
    ensures WithFate(a + b, windows, fate) == WithFate(a, windows, fate) + WithFate(b, windows, fate)
    ensures WithFate([x], windows, fate) == if FateOf(windows, x) == fate then [x.effect] else []
  {
    WithFateSplit(a, b, windows, fate);
    assert [x][..0] == [];
  }

  lemma {:induction false} WithFateSplit(a: seq<Arrival>, b: seq<Arrival>, windows: seq<Window>, fate: Fate)
    ensures WithFate(a + b, windows, fate) == WithFate(a, windows, fate) + WithFate(b, windows, fate)
    decreases |b|
  {
    if b == [] {
      assert a + b == a;
    } else {
      assert (a + b)[..|a + b| - 1] == a + b[..|b| - 1];
      WithFateSplit(a, b[..|b| - 1], windows, fate);
    }
  }
}
