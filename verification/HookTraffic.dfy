/** The connections of one hook, which read, forward and parse chunks, and offer the effects of
    each chunk one by one to the hook's channel while its calls of Flush are served. */
module HookTraffic {
  import opened Framing
  import H = FlushHandshake

  type Bytes = seq<Byte>

  /** How many effects the parser of a hook finds in the last of the chunks it has been fed. */
  type Yield = (nat, seq<Bytes>) -> nat

  /** The chunks read, those fed to the parser, and how many effects of the chunk that is being
      fed have been offered. */
  datatype Link = Link(data: seq<Bytes>, fed: seq<Bytes>, offered: nat)

  /** Effect i of the chunk with this number among those fed. */
  datatype Item = Item(conn: nat, chunk: nat, i: nat)

  datatype Fate = NoRoom | Enqueued(number: nat)

  /** The history of a hook: what became of each effect offered, and where the effects in its
      channel came from. */
  datatype Hook = Hook(flush: H.State, links: map<nat, Link>, fates: map<Item, Fate>, origins: seq<Item>)

  datatype HookStep =
    | Turn(hs: H.Step)
    | Read(c: nat, data: Bytes)
    | Offer(c: nat, room: bool)
    | Feed(c: nat)

  /** The chunk that is being handled. */
  ghost function Pending(l: Link): Bytes {
    if l.data == [] then [] else l.data[|l.data| - 1]
  }

  ghost predicate HookEnabled(y: Yield, g: nat, hook: Hook, step: HookStep) {
    match step
    case Turn(hs) => !hs.ReadChunk? && !hs.Feed? && H.Enabled(hook.flush, hs)
    case Read(c, data) => data != [] && c in hook.links && H.Enabled(hook.flush, H.ReadChunk(c))
    case Offer(c, _) =>
      && c in hook.links && H.Enabled(hook.flush, H.Feed(c))
      && hook.links[c].offered < y(g, hook.links[c].fed + [Pending(hook.links[c])])
    case Feed(c) =>
      && c in hook.links && H.Enabled(hook.flush, H.Feed(c))
      && hook.links[c].offered == y(g, hook.links[c].fed + [Pending(hook.links[c])])
  }

  ghost function Offered(hook: Hook, c: nat): Item
    requires c in hook.links
  {
    Item(c, |hook.links[c].fed|, hook.links[c].offered)
  }

  ghost predicate Sound(hook: Hook) {
    hook.flush.active <= hook.flush.conns.Keys
  }

  ghost function HookDo(y: Yield, g: nat, hook: Hook, step: HookStep): Hook
    requires HookEnabled(y, g, hook, step) && Sound(hook)
  {
    match step
    case Turn(hs) =>
      hook.(flush := H.Do(hook.flush, hs),
            links := if hs.Register? then hook.links[hs.c := Link([], [], 0)] else hook.links)
    case Read(c, data) =>
      var l := hook.links[c];
      hook.(flush := H.Do(hook.flush, H.ReadChunk(c)), links := hook.links[c := l.(data := l.data + [data])])
    case Offer(c, room) =>
      var l, x := hook.links[c], Offered(hook, c);
      hook.(links := hook.links[c := l.(offered := l.offered + 1)],
            fates := hook.fates[x := if room then Enqueued(|hook.origins|) else NoRoom],
            origins := if room then hook.origins + [x] else hook.origins)
    case Feed(c) =>
      var l := hook.links[c];
      hook.(flush := H.Do(hook.flush, H.Feed(c)),
            links := hook.links[c := Link(l.data, l.fed + [Pending(l)], 0)])
  }

  // ----- what a hook keeps -----

  ghost predicate LinkOk(conn: H.Conn, l: Link) {
    && |l.data| == conn.read && |l.fed| == conn.fed && (!conn.lost ==> l.fed <= l.data)
    && (l.offered > 0 ==> conn.pc.Written? || conn.pc.ServingWritten?)
  }

  ghost predicate Links(hook: Hook) {
    && hook.links.Keys == hook.flush.conns.Keys
    && forall c :: c in hook.links ==> LinkOk(hook.flush.conns[c], hook.links[c])
  }

  /** The effect has been offered. */
  ghost predicate Due(y: Yield, g: nat, links: map<nat, Link>, x: Item) {
    x.conn in links && DueIn(y, g, links[x.conn], x)
  }

  ghost predicate DueIn(y: Yield, g: nat, l: Link, x: Item) {
    if x.chunk < |l.fed| then x.i < y(g, l.fed[..x.chunk + 1]) else x.chunk == |l.fed| && x.i < l.offered
  }

  ghost predicate Fates(y: Yield, g: nat, hook: Hook) {
    forall x :: x in hook.fates <==> Due(y, g, hook.links, x)
  }

  /** Effects in the channel and effects offered while there was room stand for each other. */
  ghost predicate Origins(hook: Hook) {
    && (forall n :: 0 <= n < |hook.origins| ==> HasFate(hook.fates, hook.origins[n], n))
    && (forall x :: x in hook.fates && hook.fates[x].Enqueued? ==> IsOrigin(hook.origins, hook.fates[x].number, x))
  }

  ghost predicate HasFate(fates: map<Item, Fate>, x: Item, n: nat) {
    x in fates && fates[x] == Enqueued(n)
  }

  ghost predicate IsOrigin(origins: seq<Item>, n: nat, x: Item) {
    n < |origins| && origins[n] == x
  }

  ghost predicate HookInv(y: Yield, g: nat, hook: Hook) {
    H.Inv(hook.flush) && Links(hook) && Fates(y, g, hook) && Origins(hook)
  }

  lemma LinksKept(y: Yield, g: nat, hook: Hook, step: HookStep)
    requires HookInv(y, g, hook) && HookEnabled(y, g, hook, step)
    ensures Links(HookDo(y, g, hook, step))
  {
    match step
    case Turn(hs) => TurnLinks(hook, hs);
    case Read(c, _) => assert LinkOk(hook.flush.conns[c], hook.links[c]);
    case Offer(c, _) => assert LinkOk(hook.flush.conns[c], hook.links[c]);
    case Feed(c) => FeedLink(hook.flush.conns[c], hook.links[c]);
  }

  lemma TurnLinks(hook: Hook, hs: H.Step)
    requires H.Inv(hook.flush) && Links(hook) && H.Enabled(hook.flush, hs) && !hs.ReadChunk? && !hs.Feed?
    ensures Links(hook.(flush := H.Do(hook.flush, hs),
                        links := if hs.Register? then hook.links[hs.c := Link([], [], 0)] else hook.links))
  {
    match hs
    case Register(_) =>
    case Write(c) => assert LinkOk(hook.flush.conns[c], hook.links[c]);
    case WriteFails(c) => assert LinkOk(hook.flush.conns[c], hook.links[c]);
    case End(c) => assert LinkOk(hook.flush.conns[c], hook.links[c]);
    case FlushOver(c) => assert LinkOk(hook.flush.conns[c], hook.links[c]);
    case Accept(f) =>
      var c := H.Current(hook.flush, f);
      assert LinkOk(hook.flush.conns[c], hook.links[c]);
    case _ =>
  }

  lemma FeedLink(conn: H.Conn, l: Link)
    requires LinkOk(conn, l) && H.ConnInv(conn) && (conn.pc.Written? || conn.pc.ServingWritten?)
    ensures |l.fed + [Pending(l)]| == conn.fed + 1 && (!conn.lost ==> l.fed + [Pending(l)] <= l.data)
  {
    if !conn.lost { assert l.data == l.fed + [Pending(l)]; }
  }

  lemma FatesKept(y: Yield, g: nat, hook: Hook, step: HookStep)
    requires HookInv(y, g, hook) && HookEnabled(y, g, hook, step)
    ensures Fates(y, g, HookDo(y, g, hook, step))
  {
    var after := HookDo(y, g, hook, step);
    forall x ensures x in after.fates <==> Due(y, g, after.links, x) {
      match step
      case Feed(c) => if x.conn == c { FeedDue(y, g, hook.links[c], x); }
      case _ =>
    }
  }

  lemma FeedDue(y: Yield, g: nat, l: Link, x: Item)
    requires l.offered == y(g, l.fed + [Pending(l)])
    ensures DueIn(y, g, Link(l.data, l.fed + [Pending(l)], 0), x) <==> DueIn(y, g, l, x)
  {
    var fed := l.fed + [Pending(l)];
    if x.chunk < |l.fed| {
      assert fed[..x.chunk + 1] == l.fed[..x.chunk + 1];
    } else if x.chunk == |l.fed| {
      assert fed[..x.chunk + 1] == fed;
    }
  }

  lemma OfferedIsNew(y: Yield, g: nat, hook: Hook, c: nat)
    requires HookInv(y, g, hook) && c in hook.links
    ensures Offered(hook, c) !in hook.fates
  {
    assert !Due(y, g, hook.links, Offered(hook, c));
  }

  lemma OriginsKept(y: Yield, g: nat, hook: Hook, step: HookStep)
    requires HookInv(y, g, hook) && HookEnabled(y, g, hook, step)
    ensures Origins(HookDo(y, g, hook, step))
  {
    if step.Offer? {
      OfferedIsNew(y, g, hook, step.c);
      OfferOrigins(hook.fates, hook.origins, Offered(hook, step.c), step.room);
    }
  }

  lemma OfferOrigins(fates: map<Item, Fate>, origins: seq<Item>, x: Item, room: bool)
    requires x !in fates
    requires forall n :: 0 <= n < |origins| ==> HasFate(fates, origins[n], n)
    requires forall z :: z in fates && fates[z].Enqueued? ==> IsOrigin(origins, fates[z].number, z)
    ensures
      var fates' := fates[x := if room then Enqueued(|origins|) else NoRoom];
      var origins' := if room then origins + [x] else origins;
      && (forall n :: 0 <= n < |origins'| ==> HasFate(fates', origins'[n], n))
      && (forall z :: z in fates' && fates'[z].Enqueued? ==> IsOrigin(origins', fates'[z].number, z))
  {
    var fates' := fates[x := if room then Enqueued(|origins|) else NoRoom];
    var origins' := if room then origins + [x] else origins;
    forall n | 0 <= n < |origins'| ensures HasFate(fates', origins'[n], n) {
      if n < |origins| { assert HasFate(fates, origins[n], n); }
    }
    forall z | z in fates' && fates'[z].Enqueued? ensures IsOrigin(origins', fates'[z].number, z) {
      if z != x { assert IsOrigin(origins, fates[z].number, z); }
    }
  }

  lemma HookInvKept(y: Yield, g: nat, hook: Hook, step: HookStep)
    requires HookInv(y, g, hook) && HookEnabled(y, g, hook, step)
    ensures HookInv(y, g, HookDo(y, g, hook, step))
  {
    LinksKept(y, g, hook, step);
    FatesKept(y, g, hook, step);
    OriginsKept(y, g, hook, step);
    match step
    case Turn(hs) => H.InvKept(hook.flush, hs);
    case Read(c, _) => H.InvKept(hook.flush, H.ReadChunk(c));
    case Offer(_, _) =>
    case Feed(c) => H.InvKept(hook.flush, H.Feed(c));
  }

  ghost predicate AllEnded(hook: Hook) {
    forall c :: c in hook.flush.conns ==> hook.flush.conns[c].pc.Ended?
  }

  /** Without new connections nothing more happens once all have ended. */
  lemma EndedForGood(y: Yield, g: nat, hook: Hook, step: HookStep)
    requires H.Inv(hook.flush) && HookEnabled(y, g, hook, step) && AllEnded(hook)
    requires step.Turn? ==> !step.hs.Register?
    ensures AllEnded(HookDo(y, g, hook, step)) && !step.Offer?
  {
    match step
    case Turn(hs) => TurnEnded(hook.flush, hs);
    case _ =>
  }

  lemma TurnEnded(s: H.State, hs: H.Step)
    requires H.Inv(s) && H.Enabled(s, hs) && !hs.Register?
    requires forall c :: c in s.conns ==> s.conns[c].pc.Ended?
    ensures forall c :: c in H.Do(s, hs).conns ==> H.Do(s, hs).conns[c].pc.Ended?
  {
  }

  lemma OnlyOffersEnqueue(y: Yield, g: nat, hook: Hook, step: HookStep)
    requires HookInv(y, g, hook) && HookEnabled(y, g, hook, step)
    ensures |HookDo(y, g, hook, step).origins| == |hook.origins| + if step.Offer? && step.room then 1 else 0
  {
  }

  // ----- how a hook grows -----

  /** Connections only read and feed more; fates stay, and new ones are of chunks not yet fed. */
  ghost predicate HookGrows(a: Hook, b: Hook) {
    && H.Grows(a.flush.conns, b.flush.conns)
    && (forall x :: x in a.fates ==> x in b.fates && b.fates[x] == a.fates[x])
    && (forall x :: x in b.fates && x !in a.fates ==> x.conn in a.flush.conns && a.flush.conns[x.conn].fed <= x.chunk)
  }

  lemma StepGrows(y: Yield, g: nat, hook: Hook, step: HookStep)
    requires HookInv(y, g, hook) && HookEnabled(y, g, hook, step)
    ensures HookGrows(hook, HookDo(y, g, hook, step))
  {
    match step
    case Turn(hs) => H.ConnsGrow(hook.flush, hs);
    case Read(c, _) => H.ConnsGrow(hook.flush, H.ReadChunk(c));
    case Offer(c, _) =>
      OfferedIsNew(y, g, hook, c);
      assert LinkOk(hook.flush.conns[c], hook.links[c]);
    case Feed(c) => H.ConnsGrow(hook.flush, H.Feed(c));
  }

  /** Connections read and feed more, and what has been read stays. */
  ghost predicate Onward(a: Hook, b: Hook) {
    && H.Grows(a.flush.conns, b.flush.conns)
    && forall c :: c in a.links ==> c in b.links && a.links[c].data <= b.links[c].data
  }

  lemma StepGoesOnward(y: Yield, g: nat, hook: Hook, step: HookStep)
    requires HookInv(y, g, hook) && HookEnabled(y, g, hook, step)
    ensures Onward(hook, HookDo(y, g, hook, step))
  {
    StepGrows(y, g, hook, step);
  }

  lemma OnwardAgain(a: Hook, b: Hook, c: Hook)
    requires Onward(a, b) && Onward(b, c)
    ensures Onward(a, c)
  {
    H.GrowsOn(a.flush.conns, b.flush.conns, c.flush.conns);
    forall k | k in a.links ensures k in c.links && a.links[k].data <= c.links[k].data {
      PrefixAgain(a.links[k].data, b.links[k].data, c.links[k].data);
    }
  }

  lemma PrefixAgain(a: seq<Bytes>, b: seq<Bytes>, c: seq<Bytes>)
    requires a <= b && b <= c
    ensures a <= c
  {
  }

  // ----- calls of Flush -----

  /** The call is underway with the connections and marks it began with. */
  ghost predicate SameCall(a: H.State, b: H.State, q: nat) {
    && H.Underway(a, q) && H.Underway(b, q)
    && b.calls[q].conns == a.calls[q].conns && b.calls[q].marks == a.calls[q].marks
  }

  ghost predicate OwnStep(hs: H.Step, q: nat) {
    (hs.Begin? || hs.Cancel? || hs.Finish?) && hs.f == q
  }

  lemma CallStands(y: Yield, g: nat, hook: Hook, step: HookStep, q: nat)
    requires H.Inv(hook.flush) && HookEnabled(y, g, hook, step) && H.Underway(hook.flush, q)
    requires step.Turn? ==> !OwnStep(step.hs, q)
    ensures SameCall(hook.flush, HookDo(y, g, hook, step).flush, q)
  {
    match step
    case Turn(hs) => TurnLeavesCall(hook.flush, hs, q);
    case Read(c, _) => TurnLeavesCall(hook.flush, H.ReadChunk(c), q);
    case Offer(_, _) =>
    case Feed(c) => TurnLeavesCall(hook.flush, H.Feed(c), q);
  }

  lemma TurnLeavesCall(s: H.State, hs: H.Step, q: nat)
    requires H.Inv(s) && H.Enabled(s, hs) && H.Underway(s, q) && !OwnStep(hs, q)
    ensures SameCall(s, H.Do(s, hs), q)
  {
    match hs
    case WriteFails(_) =>
    case FlushOver(_) =>
    case _ =>
  }

  // ----- what had been read before a moment, and has since been fed -----

  /** The connections are there and have read that much. */
  ghost predicate Known(hook: Hook, seen: map<nat, nat>) {
    forall c :: c in seen ==> H.Marked(hook.flush.conns, seen, c)
  }

  /** All that has been fed, unless the connection lost a write. */
  ghost predicate AllFed(hook: Hook, seen: map<nat, nat>) {
    forall c :: c in seen ==> H.Passed(hook.flush.conns, seen, c)
  }

  ghost predicate Asked(call: H.Call, seen: map<nat, nat>, c: nat) {
    c in call.conns && c in seen && c in call.marks && seen[c] <= call.marks[c]
  }

  /** A call that is underway will have fed it. */
  ghost predicate InCall(hook: Hook, q: nat, seen: map<nat, nat>) {
    && H.Underway(hook.flush, q)
    && forall c :: c in seen ==> H.Passed(hook.flush.conns, seen, c) || Asked(hook.flush.calls[q], seen, c)
  }

  /** A chunk that had been read by then. */
  ghost predicate Early(hook: Hook, seen: map<nat, nat>, c: nat, chunk: nat) {
    c in seen && chunk < seen[c] && c in hook.flush.conns && !hook.flush.conns[c].lost
  }

  /** The effects of such chunks were among the first mark effects in the channel, if there was room. */
  ghost predicate Caught(hook: Hook, seen: map<nat, nat>, mark: nat) {
    forall x :: x in hook.fates && Early(hook, seen, x.conn, x.chunk) ==> CaughtItem(hook.fates, x, mark)
  }

  ghost predicate CaughtItem(fates: map<Item, Fate>, x: Item, mark: nat)
    requires x in fates
  {
    fates[x].Enqueued? ==> fates[x].number < mark
  }

  lemma KnownGrows(a: Hook, b: Hook, seen: map<nat, nat>)
    requires Known(a, seen) && HookGrows(a, b)
    ensures Known(b, seen)
  {
    forall c | c in seen ensures H.Marked(b.flush.conns, seen, c) { assert H.Marked(a.flush.conns, seen, c); }
  }

  lemma AllFedGrows(a: Hook, b: Hook, seen: map<nat, nat>)
    requires AllFed(a, seen) && HookGrows(a, b)
    ensures AllFed(b, seen)
  {
    forall c | c in seen ensures H.Passed(b.flush.conns, seen, c) { assert H.Passed(a.flush.conns, seen, c); }
  }

  lemma InCallGrows(a: Hook, b: Hook, q: nat, seen: map<nat, nat>)
    requires InCall(a, q, seen) && HookGrows(a, b) && SameCall(a.flush, b.flush, q)
    ensures InCall(b, q, seen)
  {
    forall c | c in seen ensures H.Passed(b.flush.conns, seen, c) || Asked(b.flush.calls[q], seen, c) {
      assert H.Passed(a.flush.conns, seen, c) || Asked(a.flush.calls[q], seen, c);
    }
  }

  lemma CaughtGrows(a: Hook, b: Hook, seen: map<nat, nat>, mark: nat)
    requires Caught(a, seen, mark) && AllFed(a, seen) && HookGrows(a, b)
    ensures Caught(b, seen, mark)
  {
    forall x | x in b.fates && Early(b, seen, x.conn, x.chunk) ensures CaughtItem(b.fates, x, mark) {
      assert H.Passed(a.flush.conns, seen, x.conn);
      assert x in a.fates && Early(a, seen, x.conn, x.chunk);
      assert CaughtItem(a.fates, x, mark);
    }
  }

  /** All effects that are in the channel by now. */
  lemma CaughtByNow(hook: Hook, seen: map<nat, nat>)
    requires Origins(hook)
    ensures Caught(hook, seen, |hook.origins|)
  {
    forall x | x in hook.fates && Early(hook, seen, x.conn, x.chunk) ensures CaughtItem(hook.fates, x, |hook.origins|) {
      if hook.fates[x].Enqueued? { assert IsOrigin(hook.origins, hook.fates[x].number, x); }
    }
  }

  /** A call that begins asks every connection that has not ended. */
  lemma BeginAsks(y: Yield, g: nat, hook: Hook, q: nat, conns: seq<nat>, seen: map<nat, nat>)
    requires H.Inv(hook.flush) && HookEnabled(y, g, hook, Turn(H.Begin(q, conns))) && Known(hook, seen)
    ensures InCall(HookDo(y, g, hook, Turn(H.Begin(q, conns))), q, seen)
  {
    var after := HookDo(y, g, hook, Turn(H.Begin(q, conns)));
    forall c | c in seen ensures H.Passed(after.flush.conns, seen, c) || Asked(after.flush.calls[q], seen, c) {
      assert H.Marked(hook.flush.conns, seen, c) && H.ConnInv(hook.flush.conns[c]);
      if c in hook.flush.active { assert c in conns; }
    }
  }

  /** A call that returns nil has made every connection feed what it had read. */
  lemma FinishFeeds(y: Yield, g: nat, hook: Hook, q: nat, seen: map<nat, nat>)
    requires H.Inv(hook.flush) && HookEnabled(y, g, hook, Turn(H.Finish(q))) && InCall(hook, q, seen)
    ensures AllFed(HookDo(y, g, hook, Turn(H.Finish(q))), seen)
  {
    var call := hook.flush.calls[q];
    assert H.CallInv(hook.flush.conns, call);
    forall c | c in seen ensures H.Passed(hook.flush.conns, seen, c) {
      if Asked(call, seen, c) {
        var j :| 0 <= j < |call.conns| && call.conns[j] == c;
        assert H.Passed(hook.flush.conns, call.marks, call.conns[j]);
      }
    }
  }

  /** The effects of a chunk that has been fed have been offered. */
  lemma FedIsOffered(y: Yield, g: nat, hook: Hook, x: Item)
    requires HookInv(y, g, hook) && x.conn in hook.links && x.chunk < |hook.links[x.conn].fed|
    requires x.i < y(g, hook.links[x.conn].fed[..x.chunk + 1])
    ensures x in hook.fates
  {
    assert Due(y, g, hook.links, x);
  }
}
