/** One proxied connection: bytes read from the client are written to the server, then fed to
    the parser, and the captured effects are offered to a bounded channel. */
module Sniffer {
  import opened Framing

  datatype ReadError = NoError | Timeout | Failed

  /** The outcome of one read, and of the write of what was read. */
  datatype Read = Read(data: seq<Byte>, error: ReadError, writeFails: bool)

  /** One turn of the sniff loop: an ordinary read, or a flush request with the reads its idle
      window allows. */
  datatype Turn = Poll(read: Read) | Flush(window: seq<Read>)

  /** An effect offered to the channel, and whether there was room. */
  datatype Offer<E> = Offer(effect: E, taken: bool)

  // ----- which reads are performed -----

  predicate WriteFailed(r: Read) {
    r.data != [] && r.writeFails
  }

  /** A flush ends after this many of the reads its window allows. */
  function FlushLength(window: seq<Read>): (n: nat)
    ensures n <= |window|
  {
    if window == [] then 0
    else if WriteFailed(window[0]) || window[0].error != NoError then 1
    else 1 + FlushLength(window[1..])
  }

  predicate StopsLoop(r: Read) {
    WriteFailed(r) || r.error == Failed
  }

  function Performed(turns: seq<Turn>): seq<Read> {
    if turns == [] then []
    else
      match turns[0]
      case Flush(window) => window[..FlushLength(window)] + Performed(turns[1..])
      case Poll(read) => if StopsLoop(read) then [read] else [read] + Performed(turns[1..])
  }

  /** A flush reads on up to and with the first read that brings an error, a timeout too, or
      whose bytes cannot be written. */
  lemma {:induction false} FlushReadsUpToFailure(window: seq<Read>)
    ensures var n := FlushLength(window);
      && (forall i :: 0 <= i < n - 1 ==>
            window[i].error == NoError && !(window[i].data != [] && window[i].writeFails))
      && (n < |window| ==>
            && n > 0
            && (window[n - 1].error != NoError || (window[n - 1].data != [] && window[n - 1].writeFails)))
    decreases |window|
  {
    if window != [] && !WriteFailed(window[0]) && window[0].error == NoError {
      FlushReadsUpToFailure(window[1..]);
      var n := FlushLength(window);
      forall i | 0 <= i < n - 1
        ensures window[i].error == NoError && !(window[i].data != [] && window[i].writeFails)
      {
        if i > 0 { assert window[i] == window[1..][i - 1]; }
      }
      if n < |window| { assert n > 1 && window[n - 1] == window[1..][n - 2]; }
    }
  }

  /** The loop goes on after every flush, whatever became of it, and after every poll that brought
      data or timed out and lost no write; any other poll is the last read of the connection. */
  lemma PerformedUntilLost(turns: seq<Turn>, last: Turn, more: seq<Turn>)
    requires forall t :: t in turns && t.Poll? ==>
      t.read.error != Failed && !(t.read.data != [] && t.read.writeFails)
    ensures Performed(turns + ([last] + more)) ==
      if last.Flush? then Performed(turns) + (last.window[..FlushLength(last.window)] + Performed(more))
      else if last.read.error == Failed || (last.read.data != [] && last.read.writeFails) then
        Performed(turns) + [last.read]
      else Performed(turns) + ([last.read] + Performed(more))
  {
    forall t | t in turns ensures !LastTurn(t) {
    }
    PerformedSplit(turns, [last] + more);
    assert ([last] + more)[1..] == more;
  }

  lemma {:induction false} PerformedSplit(turns: seq<Turn>, more: seq<Turn>)
    requires forall t :: t in turns ==> !LastTurn(t)
    ensures Performed(turns + more) == Performed(turns) + Performed(more)
    decreases |turns|
  {
    if turns == [] {
      assert turns + more == more;
    } else {
      var first := turns[0];
      assert !LastTurn(first);
      assert (turns + more)[1..] == turns[1..] + more;
      PerformedSplit(turns[1..], more);
      PerformedFirst(turns);
      PerformedFirst(turns + more);
      ConcatAssociates(FirstReads(first), Performed(turns[1..]), Performed(more));
    }
  }

  lemma PerformedFirst(turns: seq<Turn>)
    requires turns != [] && !LastTurn(turns[0])
    ensures Performed(turns) == FirstReads(turns[0]) + Performed(turns[1..])
  {
  }

  /** The chunks of data in some reads. */
  function ChunksRead(outcomes: seq<Read>): seq<seq<Byte>> {
    if outcomes == [] then [] else ChunkRead(outcomes[0]) + ChunksRead(outcomes[1..])
  }

  function ChunkRead(r: Read): seq<seq<Byte>> {
    if r.data == [] then [] else [r.data]
  }

  /** Those of them whose write did not fail. */
  function ChunksWritten(outcomes: seq<Read>): seq<seq<Byte>> {
    if outcomes == [] then [] else ChunkWritten(outcomes[0]) + ChunksWritten(outcomes[1..])
  }

  function ChunkWritten(r: Read): seq<seq<Byte>> {
    if r.writeFails then [] else ChunkRead(r)
  }

  ghost predicate NoWriteFailed(outcomes: seq<Read>) {
    forall r :: r in outcomes ==> !WriteFailed(r)
  }

  lemma {:induction false} ChunksReadSplit(xs: seq<Read>, ys: seq<Read>)
    ensures ChunksRead(xs + ys) == ChunksRead(xs) + ChunksRead(ys)
    decreases |xs|
  {
    if xs == [] {
      assert xs + ys == ys;
    } else {
      assert (xs + ys)[1..] == xs[1..] + ys;
      ChunksReadSplit(xs[1..], ys);
      ConcatAssociates(ChunkRead(xs[0]), ChunksRead(xs[1..]), ChunksRead(ys));
    }
  }

  lemma {:induction false} ChunksWrittenSplit(xs: seq<Read>, ys: seq<Read>)
    ensures ChunksWritten(xs + ys) == ChunksWritten(xs) + ChunksWritten(ys)
    decreases |xs|
  {
    if xs == [] {
      assert xs + ys == ys;
    } else {
      assert (xs + ys)[1..] == xs[1..] + ys;
      ChunksWrittenSplit(xs[1..], ys);
      ConcatAssociates(ChunkWritten(xs[0]), ChunksWritten(xs[1..]), ChunksWritten(ys));
    }
  }

  lemma {:induction false} AllWritten(outcomes: seq<Read>)
    requires NoWriteFailed(outcomes)
    ensures ChunksWritten(outcomes) == ChunksRead(outcomes)
    decreases |outcomes|
  {
    if outcomes != [] {
      assert !WriteFailed(outcomes[0]);
      AllWritten(outcomes[1..]);
    }
  }

  // ----- the effects -----

  function Offered<E>(offers: seq<Offer<E>>): seq<E> {
    seq(|offers|, i requires 0 <= i < |offers| => offers[i].effect)
  }

  lemma OfferedSnoc<E>(offers: seq<Offer<E>>, offer: Offer<E>)
    ensures Offered(offers + [offer]) == Offered(offers) + [offer.effect]
  {
  }

  function Taken<E>(offers: seq<Offer<E>>, taken: bool): seq<E> {
    if offers == [] then []
    else
      var last := offers[|offers| - 1];
      Taken(offers[..|offers| - 1], taken) + if last.taken == taken then [last.effect] else []
  }

  /** Every offered effect is emitted or dropped, once. */
  lemma {:induction false} OffersPartition<E>(offers: seq<Offer<E>>)
    ensures multiset(Taken(offers, true)) + multiset(Taken(offers, false)) == multiset(Offered(offers))
    decreases |offers|
  {
    if offers != [] {
      var init, last := offers[..|offers| - 1], offers[|offers| - 1];
      OffersPartition(init);
      assert offers == init + [last];
      OfferedSnoc(init, last);
      assert multiset(Offered(init) + [last.effect]) == multiset(Offered(init)) + multiset{last.effect};
    }
  }

  lemma {:induction false} FeedAllSnoc<S, E>(
    cut: Cutter<S, E>, limit: nat, state: S, buf: seq<Byte>, chunks: seq<seq<Byte>>, chunk: seq<Byte>)
    ensures var before := FeedAll(cut, limit, state, buf, chunks);
      var last := Framing.Feed(cut, limit, before.state, before.rest, chunk);
      FeedAll(cut, limit, state, buf, chunks + [chunk])
        == Parsed(last.state, last.rest, before.out + last.out, before.ok && last.ok)
    decreases |chunks|
  {
    if chunks == [] {
      var last := Framing.Feed(cut, limit, state, buf, chunk);
      assert [chunk][1..] == [];
      assert FeedAll(cut, limit, last.state, last.rest, []).out == [];
      assert [] + last.out == last.out + [];
      assert [] + [chunk] == [chunk];
    } else {
      var first := Framing.Feed(cut, limit, state, buf, chunks[0]);
      FeedAllSnoc(cut, limit, first.state, first.rest, chunks[1..], chunk);
      assert (chunks + [chunk])[1..] == chunks[1..] + [chunk];
      var before := FeedAll(cut, limit, first.state, first.rest, chunks[1..]);
      var last := Framing.Feed(cut, limit, before.state, before.rest, chunk);
      assert first.out + (before.out + last.out) == (first.out + before.out) + last.out;
    }
  }

  lemma {:induction false} ConcatSnoc(chunks: seq<seq<Byte>>, chunk: seq<Byte>)
    ensures Concat(chunks + [chunk]) == Concat(chunks) + chunk
    decreases |chunks|
  {
    if chunks == [] {
      assert [] + [chunk] == [chunk] && [chunk][1..] == [];
      assert Concat([]) == [] && chunk + [] == chunk == [] + chunk;
    } else {
      assert (chunks + [chunk])[1..] == chunks[1..] + [chunk];
      ConcatSnoc(chunks[1..], chunk);
      assert chunks[0] + (Concat(chunks[1..]) + chunk) == (chunks[0] + Concat(chunks[1..])) + chunk;
    }
  }

  // ----- the connection -----

  /** How many chunks had been read and fed when a flush was acknowledged. */
  datatype Ack = Ack(received: nat, fed: nat)

  class Connection<S(!new), E(!new)> {
    const cut: Cutter<S, E>
    const limit: nat
    const initial: S
    const room: nat -> bool // whether the channel has room for the k-th effect offered

    var state: S
    var buf: seq<Byte>
    var forwarded: seq<Byte>
    var offers: seq<Offer<E>>
    ghost var acks: seq<Ack>
    ghost var received: seq<seq<Byte>>
    ghost var fed: seq<seq<Byte>>

    ghost predicate Valid()
      reads this
    {
      && forwarded == Concat(fed)
      && (var p := FeedAll(cut, limit, initial, [], fed);
          p.state == state && p.rest == buf && p.out == Offered(offers))
      && forall k :: 0 <= k < |offers| ==> offers[k].taken == room(k)
    }

    constructor (cut: Cutter<S, E>, limit: nat, initial: S, room: nat -> bool)
      ensures Valid() && received == [] && fed == [] && acks == []
      ensures this.cut == cut && this.limit == limit && this.initial == initial && this.room == room
    {
      this.cut, this.limit, this.initial, this.room := cut, limit, initial, room;
      state, buf := initial, [];
      forwarded, offers, acks, received, fed := [], [], [], [], [];
    }

    method Emit(effects: seq<E>)
      requires forall k :: 0 <= k < |offers| ==> offers[k].taken == room(k)
      modifies this`offers
      ensures forall k :: 0 <= k < |offers| ==> offers[k].taken == room(k)
      ensures Offered(offers) == old(Offered(offers)) + effects
    {
      for i := 0 to |effects|
        invariant forall k :: 0 <= k < |offers| ==> offers[k].taken == room(k)
        invariant Offered(offers) == old(Offered(offers)) + effects[..i]
      {
        OfferedSnoc(offers, Offer(effects[i], room(|offers|)));
        offers := offers + [Offer(effects[i], room(|offers|))];
        assert effects[..i + 1] == effects[..i] + [effects[i]];
      }
    }

    /** Writes what was read to the server and, if that works, feeds it. */
    method Relay(read: Read) returns (ok: bool)
      requires Valid()
      modifies this
      ensures Valid() && acks == old(acks) && ok == !WriteFailed(read)
      ensures received == old(received) + ChunksRead([read])
      ensures fed == old(fed) + ChunksWritten([read])
    {
      if |read.data| == 0 {
        return true;
      }
      received := received + [read.data];
      if read.writeFails {
        return false;
      }
      forwarded := forwarded + read.data;
      var parsed := Framing.Feed(cut, limit, state, buf, read.data);
      FeedAllSnoc(cut, limit, initial, [], fed, read.data);
      ConcatSnoc(fed, read.data);
      state, buf, fed := parsed.state, parsed.rest, fed + [read.data];
      Emit(parsed.out);
      return true;
    }

    method FlushConn(window: seq<Read>)
      requires Valid()
      modifies this
      ensures Valid() && acks == old(acks)
      ensures After(received, fed, old(received), old(fed), window[..FlushLength(window)])
    {
      AfterNothing(received, fed);
      for i := 0 to |window|
        invariant Valid() && acks == old(acks)
        invariant FlushLength(window) == i + FlushLength(window[i..])
        invariant After(received, fed, old(received), old(fed), window[..i])
      {
        var ok := Relay(window[i]);
        FlushStep(window, i);
        AfterMore(old(received), old(fed), window[..i], [window[i]]);
        if !ok || window[i].error != NoError {
          return;
        }
      }
      assert window[..|window|] == window;
    }

    method SniffClientToServer(turns: seq<Turn>)
      requires Valid()
      modifies this
      ensures Valid()
      ensures AllPerformed(turns, History(received, fed, acks), old(History(received, fed, acks)))
    {
      ghost var was := History(received, fed, acks);
      ghost var done: seq<Read> := [];
      NoTurnYet(turns, was);
      for i := 0 to |turns|
        invariant Valid() && Performing(turns, i, done, History(received, fed, acks), was)
      {
        ghost var before := History(received, fed, acks);
        match turns[i] {
          case Flush(window) =>
            FlushConn(window);
            acks := acks + [Ack(|received|, |fed|)];
            TurnDone(turns, i, done, before, History(received, fed, acks), was);
          case Poll(read) =>
            var ok := Relay(read);
            TurnDone(turns, i, done, before, History(received, fed, acks), was);
            if !ok || read.error == Failed {
              return;
            }
        }
        done := done + FirstReads(turns[i]);
      }
      AllTurnsDone(turns, done, History(received, fed, acks), was);
    }
  }

  /** The acknowledgements of some turns, when so much had been received and fed before. */
  function AcksOf(turns: seq<Turn>, received: nat, fed: nat): seq<Ack> {
    if turns == [] then []
    else
      var now := FirstReads(turns[0]);
      var r, f := received + |ChunksRead(now)|, fed + |ChunksWritten(now)|;
      match turns[0]
      case Flush(_) => [Ack(r, f)] + AcksOf(turns[1..], r, f)
      case Poll(read) => if StopsLoop(read) then [] else AcksOf(turns[1..], r, f)
  }

  /** When no write fails, every flush is acknowledged with all that was received fed. */
  lemma {:induction false} AcksCaughtUp(turns: seq<Turn>, n: nat)
    requires NoWriteFailed(Performed(turns))
    ensures CaughtUp(AcksOf(turns, n, n))
    decreases |turns|
  {
    if turns != [] {
      var now := FirstReads(turns[0]);
      assert now <= Performed(turns);
      assert NoWriteFailed(now);
      AllWritten(now);
      if !LastTurn(turns[0]) {
        assert Performed(turns) == now + Performed(turns[1..]);
        assert NoWriteFailed(Performed(turns[1..]));
        AcksCaughtUp(turns[1..], n + |ChunksRead(now)|);
      }
    }
  }

  /** The whole life of a connection. If no write to the server fails, the bytes forwarded are
      the bytes read, in order, and at each flush acknowledgement everything read has been fed.
      If the stream is also well framed (accepted by strict), the effects emitted and those
      dropped for want of room are together exactly its one-shot parse. */
  method HandleConn<S(!new), E(!new)>(
    cut: Cutter<S, E>, limit: nat, initial: S, room: nat -> bool, turns: seq<Turn>, ghost strict: Cutter<S, E>)
    returns (conn: Connection<S, E>)
    requires Stable(strict) && Refines(strict, cut, limit) && strict(initial, []).More?
    ensures conn.forwarded == Concat(ChunksWritten(Performed(turns)))
    ensures conn.acks == AcksOf(turns, 0, 0)
    ensures NoWriteFailed(Performed(turns)) ==>
      var stream := Concat(ChunksRead(Performed(turns)));
      && conn.forwarded == stream
      && CaughtUp(conn.acks)
      && (Run(strict, initial, stream).ok ==>
            && Offered(conn.offers) == Run(cut, initial, stream).out
            && multiset(Taken(conn.offers, true)) + multiset(Taken(conn.offers, false))
              == multiset(Run(cut, initial, stream).out))
  {
    conn := new Connection(cut, limit, initial, room);
    conn.SniffClientToServer(turns);
    assert conn.fed == ChunksWritten(Performed(turns)) && conn.received == ChunksRead(Performed(turns));
    if NoWriteFailed(Performed(turns)) {
      NothingLost(cut, strict, limit, initial, turns);
      OffersPartition(conn.offers);
    }
  }

  lemma NothingLost<S(!new), E>(
    cut: Cutter<S, E>, strict: Cutter<S, E>, limit: nat, initial: S, turns: seq<Turn>)
    requires Stable(strict) && Refines(strict, cut, limit) && strict(initial, []).More?
    requires NoWriteFailed(Performed(turns))
    ensures var chunks := ChunksRead(Performed(turns));
      && ChunksWritten(Performed(turns)) == chunks
      && CaughtUp(AcksOf(turns, 0, 0))
      && (Run(strict, initial, Concat(chunks)).ok ==>
            FeedAll(cut, limit, initial, [], chunks) == Run(cut, initial, Concat(chunks)))
  {
    AllWritten(Performed(turns));
    AcksCaughtUp(turns, 0);
    var chunks := ChunksRead(Performed(turns));
    if Run(strict, initial, Concat(chunks)).ok {
      OneShot(cut, strict, limit, initial, chunks);
    }
  }

  lemma OneShot<S(!new), E>(
    cut: Cutter<S, E>, strict: Cutter<S, E>, limit: nat, initial: S, chunks: seq<seq<Byte>>)
    requires Stable(strict) && Refines(strict, cut, limit) && strict(initial, []).More?
    requires Run(strict, initial, Concat(chunks)).ok
    ensures FeedAll(cut, limit, initial, [], chunks) == Run(cut, initial, Concat(chunks))
  {
    assert [] + Concat(chunks) == Concat(chunks);
    ChunkingIsIrrelevant(cut, strict, limit, initial, [], chunks);
  }

  // ----- the bookkeeping of the loops -----

  /** Since r0 and f0 were all that had been received and fed, these reads were performed. */
  ghost predicate After(
    received: seq<seq<Byte>>, fed: seq<seq<Byte>>, r0: seq<seq<Byte>>, f0: seq<seq<Byte>>, done: seq<Read>)
  {
    received == r0 + ChunksRead(done) && fed == f0 + ChunksWritten(done)
  }

  ghost predicate CaughtUp(acks: seq<Ack>) {
    forall a :: a in acks ==> a.received == a.fed
  }

  lemma AfterNothing(received: seq<seq<Byte>>, fed: seq<seq<Byte>>)
    ensures After(received, fed, received, fed, [])
  {
  }

  lemma AfterMore(r0: seq<seq<Byte>>, f0: seq<seq<Byte>>, done: seq<Read>, now: seq<Read>)
    ensures After(r0 + ChunksRead(done) + ChunksRead(now), f0 + ChunksWritten(done) + ChunksWritten(now),
              r0, f0, done + now)
  {
    ChunksReadSplit(done, now);
    ChunksWrittenSplit(done, now);
    var r, f := ChunksRead(done), ChunksWritten(done);
    ConcatAssociates(r0, r, ChunksRead(now));
    ConcatAssociates(f0, f, ChunksWritten(now));
  }

  lemma FlushStep(window: seq<Read>, i: nat)
    requires i < |window| && FlushLength(window) == i + FlushLength(window[i..])
    ensures window[..i + 1] == window[..i] + [window[i]]
    ensures FlushLength(window) ==
      if WriteFailed(window[i]) || window[i].error != NoError then i + 1 else i + 1 + FlushLength(window[i + 1..])
  {
    assert window[i..][1..] == window[i + 1..];
  }

  function FirstReads(turn: Turn): seq<Read> {
    match turn
    case Flush(window) => window[..FlushLength(window)]
    case Poll(read) => [read]
  }

  ghost predicate LastTurn(turn: Turn) {
    turn.Poll? && StopsLoop(turn.read)
  }

  /** What a connection has received, fed and acknowledged. */
  datatype History = History(received: seq<seq<Byte>>, fed: seq<seq<Byte>>, acks: seq<Ack>)

  /** Since was, the first i turns have performed these reads and led to now. */
  ghost predicate Performing(turns: seq<Turn>, i: nat, done: seq<Read>, now: History, was: History) {
    && i <= |turns| && done + Performed(turns[i..]) == Performed(turns)
    && After(now.received, now.fed, was.received, was.fed, done)
    && now.acks + AcksOf(turns[i..], |now.received|, |now.fed|)
      == was.acks + AcksOf(turns, |was.received|, |was.fed|)
  }

  ghost predicate AllPerformed(turns: seq<Turn>, now: History, was: History) {
    && After(now.received, now.fed, was.received, was.fed, Performed(turns))
    && now.acks == was.acks + AcksOf(turns, |was.received|, |was.fed|)
  }

  lemma NoTurnYet(turns: seq<Turn>, was: History)
    ensures Performing(turns, 0, [], was, was)
  {
    assert turns[0..] == turns && [] + Performed(turns) == Performed(turns);
    AfterNothing(was.received, was.fed);
  }

  lemma TurnDone(turns: seq<Turn>, i: nat, done: seq<Read>, before: History, now: History, was: History)
    requires i < |turns| && Performing(turns, i, done, before, was)
    requires After(now.received, now.fed, before.received, before.fed, FirstReads(turns[i]))
    requires now.acks == if turns[i].Flush? then before.acks + [Ack(|now.received|, |now.fed|)] else before.acks
    ensures if LastTurn(turns[i]) then AllPerformed(turns, now, was)
      else Performing(turns, i + 1, done + FirstReads(turns[i]), now, was)
  {
    var reads' := FirstReads(turns[i]);
    assert turns[i..][1..] == turns[i + 1..];
    AfterMore(was.received, was.fed, done, reads');
    var others := AcksOf(turns[i + 1..], |now.received|, |now.fed|);
    if turns[i].Flush? {
      ConcatAssociates(before.acks, [Ack(|now.received|, |now.fed|)], others);
      ConcatAssociates(done, reads', Performed(turns[i + 1..]));
    } else if LastTurn(turns[i]) {
      assert before.acks + [] == before.acks;
    } else {
      ConcatAssociates(done, reads', Performed(turns[i + 1..]));
    }
  }

  lemma AllTurnsDone(turns: seq<Turn>, done: seq<Read>, now: History, was: History)
    requires Performing(turns, |turns|, done, now, was)
    ensures AllPerformed(turns, now, was)
  {
    assert turns[|turns|..] == [] && done + [] == done && now.acks + [] == now.acks;
  }
}
