/** Incremental parsers: bytes arrive in chunks, are appended to a buffer, and complete frames
    are cut off its front. A cutter looks at the parser state and the buffer and says whether
    the buffer starts with a complete frame. */
module Framing {

  type Byte = b: int | 0 <= b < 256

  datatype Cut<S, E> =
    | More                                     // no complete frame yet
    | Frame(size: nat, next: S, out: seq<E>)   // the first size bytes are a frame
    | Bad(next: S)                             // not a frame: the whole buffer is discarded

  type Cutter<!S, !E> = (S, seq<Byte>) -> Cut<S, E>

  /** ok is whether nothing had to be discarded. */
  datatype Parsed<S, E> = Parsed(state: S, rest: seq<Byte>, out: seq<E>, ok: bool)

  /** Cuts every complete frame off the buffer. */
  function Run<S, E>(cut: Cutter<S, E>, state: S, buf: seq<Byte>): (r: Parsed<S, E>)
    decreases |buf|
  {
    match cut(state, buf)
    case More => Parsed(state, buf, [], true)
    case Bad(next) => Parsed(next, [], [], false)
    case Frame(size, next, out) =>
      if 1 <= size <= |buf| then
        var r := Run(cut, next, buf[size..]);
        r.(out := out + r.out)
      else Parsed(state, buf, [], false)
  }

  /** One call of Feed: append, cut, and discard a remainder that is over the limit. */
  function Feed<S, E>(cut: Cutter<S, E>, limit: nat, state: S, buf: seq<Byte>, data: seq<Byte>): Parsed<S, E> {
    var r := Run(cut, state, buf + data);
    if |r.rest| > limit then r.(rest := []) else r
  }

  ghost function FeedAll<S, E>(
    cut: Cutter<S, E>, limit: nat, state: S, buf: seq<Byte>, chunks: seq<seq<Byte>>): Parsed<S, E>
    decreases |chunks|
  {
    if chunks == [] then Parsed(state, buf, [], true) else
      var first := Feed(cut, limit, state, buf, chunks[0]);
      var others := FeedAll(cut, limit, first.state, first.rest, chunks[1..]);
      Parsed(others.state, others.rest, first.out + others.out, first.ok && others.ok)
  }

  ghost function Concat(chunks: seq<seq<Byte>>): seq<Byte> {
    if chunks == [] then [] else chunks[0] + Concat(chunks[1..])
  }

  /** A piece of a buffer. */
  predicate At(data: seq<Byte>, offset: nat, piece: seq<Byte>) {
    offset + |piece| <= |data| && data[offset..offset + |piece|] == piece
  }

  lemma AtSplit(data: seq<Byte>, offset: nat, a: seq<Byte>, b: seq<Byte>)
    requires At(data, offset, a + b)
    ensures At(data, offset, a) && At(data, offset + |a|, b)
  {
    var whole := data[offset..offset + |a + b|];
    assert data[offset..offset + |a|] == whole[..|a|];
    assert data[offset + |a|..offset + |a| + |b|] == whole[|a|..];
  }

  // ----- cutters that can be fed in pieces -----

  /** What more bytes may change about the verdict on a buffer: only the verdict More. */
  ghost predicate StableAt<S, E>(cut: Cutter<S, E>, state: S, a: seq<Byte>, b: seq<Byte>) {
    match cut(state, a)
    case More => true
    case Frame(size, _, _) => 1 <= size <= |a| && cut(state, a + b) == cut(state, a)
    case Bad(_) => cut(state, a + b).Bad?
  }

  ghost predicate Stable<S(!new), E>(cut: Cutter<S, E>) {
    forall state, a, b :: StableAt(cut, state, a, b)
  }

  /** strict agrees with cut except that it rejects more. */
  ghost predicate RefinesAt<S, E>(strict: Cutter<S, E>, cut: Cutter<S, E>, limit: nat, state: S, a: seq<Byte>) {
    && (strict(state, a).Bad? || strict(state, a) == cut(state, a))
    && (strict(state, a).More? ==> |a| <= limit)
  }

  ghost predicate Refines<S(!new), E>(strict: Cutter<S, E>, cut: Cutter<S, E>, limit: nat) {
    forall state, a :: RefinesAt(strict, cut, limit, state, a)
  }

  // ----- following the parse from inside a loop -----

  /** With done already emitted, parsing the buffer completes the parse goal. */
  ghost predicate Completes<S, E>(cut: Cutter<S, E>, done: seq<E>, state: S, buf: seq<Byte>, goal: Parsed<S, E>) {
    var r := Run(cut, state, buf);
    done + r.out == goal.out && r.rest == goal.rest && r.state == goal.state
  }

  lemma CutOne<S, E>(cut: Cutter<S, E>, done: seq<E>, state: S, buf: seq<Byte>, goal: Parsed<S, E>)
    requires Completes(cut, done, state, buf, goal)
    requires cut(state, buf).Frame? && 1 <= cut(state, buf).size <= |buf|
    ensures var c := cut(state, buf); Completes(cut, done + c.out, c.next, buf[c.size..], goal)
  {
    var c := cut(state, buf);
    var r := Run(cut, c.next, buf[c.size..]);
    assert done + (c.out + r.out) == (done + c.out) + r.out;
  }

  lemma CutNone<S, E>(cut: Cutter<S, E>, done: seq<E>, state: S, buf: seq<Byte>, goal: Parsed<S, E>)
    requires Completes(cut, done, state, buf, goal) && !cut(state, buf).Frame?
    ensures goal.out == done
    ensures cut(state, buf).More? ==> goal.state == state && goal.rest == buf
    ensures cut(state, buf).Bad? ==> goal.state == cut(state, buf).next && goal.rest == []
  {
  }

  lemma ConcatAssociates<T>(a: seq<T>, b: seq<T>, c: seq<T>)
    ensures a + (b + c) == (a + b) + c
  {
  }

  /** Parsing a stream in two parts: the second part continues from the first's remainder. */
  lemma {:induction false} RunSplit<S(!new), E>(cut: Cutter<S, E>, state: S, a: seq<Byte>, b: seq<Byte>)
    requires Stable(cut) && Run(cut, state, a).ok
    ensures var first := Run(cut, state, a);
      var second := Run(cut, first.state, first.rest + b);
      Run(cut, state, a + b) == second.(out := first.out + second.out)
    decreases |a|
  {
    assert StableAt(cut, state, a, b);
    match cut(state, a)
    case More =>
      assert Run(cut, state, a).out == [];
      var second := Run(cut, state, a + b);
      assert [] + second.out == second.out;
    case Frame(size, next, out) =>
      RunSplit(cut, next, a[size..], b);
      assert (a + b)[size..] == a[size..] + b;
      var first := Run(cut, next, a[size..]);
      ConcatAssociates(out, first.out, Run(cut, first.state, first.rest + b).out);
    case Bad(_) =>
  }

  lemma {:induction false} BadStaysBad<S(!new), E>(cut: Cutter<S, E>, state: S, a: seq<Byte>, b: seq<Byte>)
    requires Stable(cut) && !Run(cut, state, a).ok
    ensures !Run(cut, state, a + b).ok
    decreases |a|
  {
    assert StableAt(cut, state, a, b);
    if cut(state, a).Frame? {
      var size, next := cut(state, a).size, cut(state, a).next;
      assert (a + b)[size..] == a[size..] + b;
      BadStaysBad(cut, next, a[size..], b);
    }
  }

  lemma {:induction false} RunRefined<S(!new), E>(
    strict: Cutter<S, E>, cut: Cutter<S, E>, limit: nat, state: S, a: seq<Byte>)
    requires Refines(strict, cut, limit) && Run(strict, state, a).ok
    ensures Run(cut, state, a) == Run(strict, state, a) && |Run(cut, state, a).rest| <= limit
    decreases |a|
  {
    assert RefinesAt(strict, cut, limit, state, a);
    if strict(state, a).Frame? {
      RunRefined(strict, cut, limit, strict(state, a).next, a[strict(state, a).size..]);
    }
  }

  /** However a stream is cut into calls of Feed, the calls together give its one-shot parse,
      and nothing is ever discarded, provided the strict cutter accepts the stream. */
  lemma {:induction false} ChunkingIsIrrelevant<S(!new), E>(
    cut: Cutter<S, E>, strict: Cutter<S, E>, limit: nat, state: S, buf: seq<Byte>, chunks: seq<seq<Byte>>)
    requires Stable(strict) && Refines(strict, cut, limit)
    requires Run(strict, state, buf + Concat(chunks)).ok
    requires strict(state, buf).More?
    ensures FeedAll(cut, limit, state, buf, chunks) == Run(cut, state, buf + Concat(chunks))
    decreases |chunks|
  {
    RunRefined(strict, cut, limit, state, buf + Concat(chunks));
    if chunks == [] {
      assert buf + Concat(chunks) == buf;
    } else {
      var a := buf + chunks[0];
      var more := Concat(chunks[1..]);
      assert buf + Concat(chunks) == a + more;
      if !Run(strict, state, a).ok { BadStaysBad(strict, state, a, more); }
      RunRefined(strict, cut, limit, state, a);
      RunSplit(strict, state, a, more);
      var first := Run(strict, state, a);
      RestNeedsMore(strict, state, a);
      ChunkingIsIrrelevant(cut, strict, limit, first.state, first.rest, chunks[1..]);
      RunRefined(strict, cut, limit, first.state, first.rest + more);
    }
  }

  lemma {:induction false} RestNeedsMore<S, E>(cut: Cutter<S, E>, state: S, a: seq<Byte>)
    requires Run(cut, state, a).ok
    ensures cut(Run(cut, state, a).state, Run(cut, state, a).rest).More?
    decreases |a|
  {
    if cut(state, a).Frame? {
      RestNeedsMore(cut, cut(state, a).next, a[cut(state, a).size..]);
    }
  }

  // ----- streams that are not well framed -----

  lemma {:induction false} BadKeepsOutput<S(!new), E>(cut: Cutter<S, E>, state: S, a: seq<Byte>, b: seq<Byte>)
    requires Stable(cut) && !Run(cut, state, a).ok
    ensures Run(cut, state, a + b).out == Run(cut, state, a).out && Run(cut, state, a).rest == []
    decreases |a|
  {
    assert StableAt(cut, state, a, b);
    if cut(state, a).Frame? {
      var size, next := cut(state, a).size, cut(state, a).next;
      assert (a + b)[size..] == a[size..] + b;
      BadKeepsOutput(cut, next, a[size..], b);
    }
  }

  lemma {:induction false} StrictOutputIsPrefix<S(!new), E>(
    strict: Cutter<S, E>, cut: Cutter<S, E>, limit: nat, state: S, a: seq<Byte>)
    requires Refines(strict, cut, limit)
    ensures Run(strict, state, a).out <= Run(cut, state, a).out
    decreases |a|
  {
    assert RefinesAt(strict, cut, limit, state, a);
    if strict(state, a).Frame? && 1 <= strict(state, a).size <= |a| {
      StrictOutputIsPrefix(strict, cut, limit, strict(state, a).next, a[strict(state, a).size..]);
    }
  }

  lemma PrefixGrows<T>(p: seq<T>, a: seq<T>, b: seq<T>)
    requires a <= b
    ensures p + a <= p + b
  {
  }

  lemma PrefixExtends<T>(a: seq<T>, b: seq<T>, c: seq<T>)
    requires a <= b
    ensures a <= b + c
  {
  }

  /** On every stream, however malformed and however cut up, everything the strict one-shot
      parse captures before the first rejected frame is captured first. */
  lemma {:induction false} OneShotIsPrefix<S(!new), E>(
    cut: Cutter<S, E>, strict: Cutter<S, E>, limit: nat, state: S, buf: seq<Byte>, chunks: seq<seq<Byte>>)
    requires Stable(strict) && Refines(strict, cut, limit) && strict(state, buf).More?
    ensures Run(strict, state, buf + Concat(chunks)).out <= FeedAll(cut, limit, state, buf, chunks).out
    decreases |chunks|
  {
    if chunks == [] {
      assert buf + Concat(chunks) == buf;
    } else {
      var a := buf + chunks[0];
      var more := Concat(chunks[1..]);
      assert buf + Concat(chunks) == a + more;
      if Run(strict, state, a).ok {
        RunSplit(strict, state, a, more);
        RunRefined(strict, cut, limit, state, a);
        RestNeedsMore(strict, state, a);
        var first := Run(strict, state, a);
        OneShotIsPrefix(cut, strict, limit, first.state, first.rest, chunks[1..]);
        PrefixGrows(first.out, Run(strict, first.state, first.rest + more).out,
          FeedAll(cut, limit, first.state, first.rest, chunks[1..]).out);
      } else {
        BadKeepsOutput(strict, state, a, more);
        StrictOutputIsPrefix(strict, cut, limit, state, a);
        var first := Feed(cut, limit, state, buf, chunks[0]);
        PrefixExtends(Run(strict, state, a).out, first.out,
          FeedAll(cut, limit, first.state, first.rest, chunks[1..]).out);
      }
    }
  }

  ghost predicate SplitSafe<S, E>(
    cut: Cutter<S, E>, limit: nat, state: S, stream: seq<Byte>, chunks: seq<seq<Byte>>)
  {
    Concat(chunks) == stream ==> FeedAll(cut, limit, state, [], chunks) == Run(cut, state, stream)
  }

  /** Buffers of at most one byte are never complete. */
  ghost predicate Slow<S(!new), E>(cut: Cutter<S, E>) {
    forall state, a: seq<Byte> :: |a| <= 1 ==> cut(state, a).More?
  }

  lemma LastByteApart(stream: seq<Byte>)
    requires |stream| > 0
    ensures Concat([stream[..|stream| - 1], stream[|stream| - 1..]]) == stream
  {
    var chunks := [stream[..|stream| - 1], stream[|stream| - 1..]];
    assert chunks[1..] == [chunks[1]];
    assert Concat([chunks[1]]) == chunks[1] + [];
    assert chunks[0] + chunks[1] == stream;
  }

  lemma FeedTwo<S, E>(cut: Cutter<S, E>, limit: nat, state: S, a: seq<Byte>, b: seq<Byte>)
    ensures var first := Feed(cut, limit, state, [], a);
      var second := Feed(cut, limit, first.state, first.rest, b);
      FeedAll(cut, limit, state, [], [a, b])
        == Parsed(second.state, second.rest, first.out + second.out, first.ok && second.ok)
  {
    var first := Feed(cut, limit, state, [], a);
    var second := Feed(cut, limit, first.state, first.rest, b);
    assert [a, b][1..] == [b] && [b][1..] == [];
    assert FeedAll(cut, limit, second.state, second.rest, []) == Parsed(second.state, second.rest, [], true);
    assert second.out + [] == second.out;
    assert FeedAll(cut, limit, first.state, first.rest, [b]) == second;
  }

  lemma {:induction false} FeedNothing<S(!new), E>(cut: Cutter<S, E>, limit: nat, state: S, chunks: seq<seq<Byte>>)
    requires Slow(cut) && Concat(chunks) == []
    ensures FeedAll(cut, limit, state, [], chunks) == Parsed(state, [], [], true)
    decreases |chunks|
  {
    if chunks != [] {
      assert chunks[0] == [] && Concat(chunks[1..]) == [];
      assert cut(state, [] + chunks[0]).More?;
      FeedNothing(cut, limit, state, chunks[1..]);
    }
  }

  /** A stream whose last byte completes a frame that is rejected. */
  lemma {:induction false} RejectedAtTheEnd<S(!new), E>(
    cut: Cutter<S, E>, strict: Cutter<S, E>, limit: nat, state: S,
    buf: seq<Byte>, chunks: seq<seq<Byte>>, whole: seq<Byte>)
    requires Stable(cut) && Slow(cut) && Stable(strict) && Refines(strict, cut, limit) && strict(state, buf).More?
    requires whole == buf + Concat(chunks) && Concat(chunks) != []
    requires Run(strict, state, whole[..|whole| - 1]).ok && !Run(cut, state, whole).ok
    ensures FeedAll(cut, limit, state, buf, chunks) == Run(cut, state, whole)
    decreases |chunks|
  {
    var a := buf + chunks[0];
    var more := Concat(chunks[1..]);
    assert whole == a + more;
    if more == [] {
      assert a == whole;
      BadKeepsOutput(cut, state, whole, []);
      var first := Run(cut, state, whole);
      FeedNothing(cut, limit, first.state, chunks[1..]);
      assert first.out + [] == first.out;
    } else {
      var less := more[..|more| - 1];
      assert whole[..|whole| - 1] == a + less;
      if !Run(strict, state, a).ok { BadStaysBad(strict, state, a, less); }
      RunSplit(strict, state, a, less);
      RunRefined(strict, cut, limit, state, a);
      RunSplit(cut, state, a, more);
      RestNeedsMore(strict, state, a);
      var first := Run(strict, state, a);
      var later := first.rest + more;
      assert later[..|later| - 1] == first.rest + less;
      RejectedAtTheEnd(cut, strict, limit, first.state, first.rest, chunks[1..], later);
    }
  }

  /** Rejecting before the last byte makes the result depend on how the stream is cut. */
  lemma RejectedEarly<S(!new), E>(cut: Cutter<S, E>, limit: nat, state: S, stream: seq<Byte>)
    requires Stable(cut) && Slow(cut) && limit >= 1 && stream != []
    requires !Run(cut, state, stream[..|stream| - 1]).ok
    ensures exists chunks :: !SplitSafe(cut, limit, state, stream, chunks)
  {
    var n := |stream| - 1;
    var w, last := stream[..n], stream[n..];
    LastByteApart(stream);
    assert w + last == stream && w + [] == w && [] + w == w && [] + last == last;
    assert Run(cut, state, w).rest == [] by { BadKeepsOutput(cut, state, w, []); }
    assert Run(cut, state, stream).rest == [] by {
      BadStaysBad(cut, state, w, last);
      BadKeepsOutput(cut, state, stream, []);
      assert stream + [] == stream;
    }
    var first := Feed(cut, limit, state, [], w);
    var second := Feed(cut, limit, first.state, first.rest, last);
    assert cut(first.state, last).More? && second.rest == last;
    FeedTwo(cut, limit, state, w, last);
    assert !SplitSafe(cut, limit, state, stream, [w, last]);
  }

  /** strict rejects no more of the buffer than cut does. */
  ghost predicate Agrees<S, E>(strict: Cutter<S, E>, cut: Cutter<S, E>, state: S, buf: seq<Byte>) {
    Run(cut, state, buf).ok ==> Run(strict, state, buf).ok
  }

  ghost predicate NotRejectedEarly<S, E>(cut: Cutter<S, E>, state: S, stream: seq<Byte>) {
    stream == [] || Run(cut, state, stream[..|stream| - 1]).ok
  }

  /** For a stream in which the limit makes strict reject nothing: every way of cutting the
      stream gives its one-shot parse exactly when no frame is rejected before the last byte. */
  lemma SplitSafeIffNotRejectedEarly<S(!new), E>(
    cut: Cutter<S, E>, strict: Cutter<S, E>, limit: nat, state: S, stream: seq<Byte>)
    requires Stable(cut) && Slow(cut) && Stable(strict) && Refines(strict, cut, limit) && limit >= 1
    requires strict(state, []).More? && Agrees(strict, cut, state, stream)
    requires stream != [] ==> Agrees(strict, cut, state, stream[..|stream| - 1])
    ensures (forall chunks :: SplitSafe(cut, limit, state, stream, chunks)) <==> NotRejectedEarly(cut, state, stream)
  {
    if !NotRejectedEarly(cut, state, stream) {
      RejectedEarly(cut, limit, state, stream);
    } else {
      forall chunks ensures SplitSafe(cut, limit, state, stream, chunks) {
        if Concat(chunks) == stream {
          assert [] + stream == stream && cut(state, []).More?;
          if Run(cut, state, stream).ok {
            ChunkingIsIrrelevant(cut, strict, limit, state, [], chunks);
          } else {
            RejectedAtTheEnd(cut, strict, limit, state, [], chunks, stream);
          }
        }
      }
    }
  }

  // ----- rejections that end everything -----

  /** A rejection is the same however many bytes follow. */
  ghost predicate FirmAt<S, E>(cut: Cutter<S, E>, state: S, a: seq<Byte>, b: seq<Byte>) {
    cut(state, a).Bad? ==> cut(state, a + b) == cut(state, a)
  }

  ghost predicate Firm<S(!new), E>(cut: Cutter<S, E>) {
    forall state, a, b :: FirmAt(cut, state, a, b)
  }

  /** A state in which nothing is parsed any more. */
  ghost predicate Dead<S, E>(cut: Cutter<S, E>, state: S) {
    forall a :: cut(state, a).More?
  }

  lemma {:induction false} BadKeepsState<S(!new), E>(cut: Cutter<S, E>, state: S, a: seq<Byte>, b: seq<Byte>)
    requires Stable(cut) && Firm(cut) && !Run(cut, state, a).ok
    ensures Run(cut, state, a + b).state == Run(cut, state, a).state
    decreases |a|
  {
    assert StableAt(cut, state, a, b) && FirmAt(cut, state, a, b);
    if cut(state, a).Frame? {
      var size, next := cut(state, a).size, cut(state, a).next;
      assert (a + b)[size..] == a[size..] + b;
      BadKeepsState(cut, next, a[size..], b);
    }
  }

  lemma {:induction false} DeadStaysDead<S(!new), E>(
    cut: Cutter<S, E>, limit: nat, state: S, buf: seq<Byte>, chunks: seq<seq<Byte>>)
    requires Dead(cut, state)
    ensures FeedAll(cut, limit, state, buf, chunks).state == state && FeedAll(cut, limit, state, buf, chunks).out == []
    decreases |chunks|
  {
    if chunks != [] {
      assert cut(state, buf + chunks[0]).More?;
      var first := Feed(cut, limit, state, buf, chunks[0]);
      DeadStaysDead(cut, limit, state, first.rest, chunks[1..]);
    }
  }

  /** The same bytes split at two places. */
  lemma SplitLater(a: seq<Byte>, b: seq<Byte>, longer: seq<Byte>, shorter: seq<Byte>)
    requires a + b == longer + shorter && |a| <= |longer|
    ensures longer == a + longer[|a|..] && b == longer[|a|..] + shorter
  {
    assert longer[..|a|] == (longer + shorter)[..|a|] == a;
    assert b == (a + b)[|a|..];
  }

  /** When the last byte of doomed brings a parse that has rejected nothing to a dead state,
      every way of cutting doomed and whatever follows it ends in that state. */
  lemma {:induction false} DeathIsCertain<S(!new), E>(
    cut: Cutter<S, E>, strict: Cutter<S, E>, limit: nat, state: S,
    buf: seq<Byte>, chunks: seq<seq<Byte>>, doomed: seq<Byte>, after: seq<Byte>)
    requires Stable(cut) && Firm(cut) && Stable(strict) && Refines(strict, cut, limit) && strict(state, buf).More?
    requires buf + Concat(chunks) == doomed + after && |buf| < |doomed|
    requires Run(strict, state, doomed[..|doomed| - 1]).ok
    requires !Run(cut, state, doomed).ok && Dead(cut, Run(cut, state, doomed).state)
    ensures FeedAll(cut, limit, state, buf, chunks).state == Run(cut, state, doomed).state
    decreases |chunks|
  {
    assert |doomed + after| >= |doomed| && (chunks == [] ==> Concat(chunks) == []);
    var a, more := buf + chunks[0], Concat(chunks[1..]);
    assert buf + Concat(chunks) == a + more;
    if |a| >= |doomed| {
      var extra := a[|doomed|..];
      SplitLater(doomed, after, a, more);
      BadKeepsState(cut, state, doomed, extra);
      var first := Feed(cut, limit, state, buf, chunks[0]);
      DeadStaysDead(cut, limit, first.state, first.rest, chunks[1..]);
    } else {
      var missing, less := doomed[|a|..], doomed[|a|..|doomed| - 1];
      SplitLater(a, more, doomed, after);
      assert doomed[..|doomed| - 1] == a + less;
      if !Run(strict, state, a).ok { BadStaysBad(strict, state, a, less); }
      RunSplit(strict, state, a, less);
      RunRefined(strict, cut, limit, state, a);
      RunSplit(cut, state, a, missing);
      RestNeedsMore(strict, state, a);
      var first := Run(strict, state, a);
      var later := first.rest + missing;
      assert later[..|later| - 1] == first.rest + less;
      ConcatAssociates(first.rest, missing, after);
      DeathIsCertain(cut, strict, limit, first.state, first.rest, chunks[1..], later, after);
    }
  }

  // ----- frames larger than the limit -----

  /** A frame is recognised by its own bytes. */
  ghost predicate LocalAt<S, E>(cut: Cutter<S, E>, state: S, a: seq<Byte>, b: seq<Byte>) {
    cut(state, a).More? && cut(state, a + b).Frame? ==> cut(state, a + b).size > |a|
  }

  ghost predicate Local<S(!new), E>(cut: Cutter<S, E>) {
    forall state, a, b :: LocalAt(cut, state, a, b)
  }

  /** cut, rejecting as well everything the limit can make Feed discard. */
  ghost function WithinLimit<S, E>(cut: Cutter<S, E>, limit: nat, state: S, a: seq<Byte>): Cut<S, E> {
    match cut(state, a)
    case More => if |a| > limit then Bad(state) else More
    case Frame(size, next, out) => if size > limit + 1 then Bad(next) else Frame(size, next, out)
    case Bad(next) => Bad(next)
  }

  ghost function Bounded<S(!new), E>(cut: Cutter<S, E>, limit: nat): Cutter<S, E> {
    (state: S, a: seq<Byte>) => WithinLimit(cut, limit, state, a)
  }

  lemma BoundedIsStable<S(!new), E>(cut: Cutter<S, E>, limit: nat)
    requires Stable(cut) && Local(cut)
    ensures Stable(Bounded(cut, limit)) && Refines(Bounded(cut, limit), cut, limit)
  {
    forall state, a, b ensures StableAt(Bounded(cut, limit), state, a, b) {
      assert StableAt(cut, state, a, b) && LocalAt(cut, state, a, b);
    }
    forall state, a ensures RefinesAt(Bounded(cut, limit), cut, limit, state, a) { }
  }

  /** No frame is more than one byte over the limit, and no incomplete one is over it. */
  ghost predicate NoneOversized<S, E>(cut: Cutter<S, E>, limit: nat, state: S, buf: seq<Byte>)
    decreases |buf|
  {
    match cut(state, buf)
    case More => |buf| <= limit
    case Bad(_) => true
    case Frame(size, next, _) =>
      1 <= size <= |buf| ==> size <= limit + 1 && NoneOversized(cut, limit, next, buf[size..])
  }

  /** Then the limit rejects nothing. */
  lemma {:induction false} LimitRejectsNothing<S(!new), E>(cut: Cutter<S, E>, limit: nat, state: S, buf: seq<Byte>)
    requires NoneOversized(cut, limit, state, buf)
    ensures Agrees(Bounded(cut, limit), cut, state, buf)
    decreases |buf|
  {
    if cut(state, buf).Frame? && 1 <= cut(state, buf).size <= |buf| {
      LimitRejectsNothing(cut, limit, cut(state, buf).next, buf[cut(state, buf).size..]);
    }
  }

  /** Every way of cutting a stream that is one frame gives that frame exactly when the frame
      is at most one byte larger than the limit. */
  lemma OneFrameSplitSafeIffFits<S(!new), E>(cut: Cutter<S, E>, limit: nat, state: S, frame: seq<Byte>)
    requires Stable(cut) && Local(cut) && Slow(cut) && limit >= 1
    requires cut(state, frame).Frame? && cut(state, frame).size == |frame| > 0
    requires cut(state, frame[..|frame| - 1]).More?
    ensures (forall chunks :: SplitSafe(cut, limit, state, frame, chunks)) <==> |frame| <= limit + 1
  {
    if |frame| <= limit + 1 {
      BoundedIsStable(cut, limit);
      var strict := Bounded(cut, limit);
      var next := cut(state, frame).next;
      assert frame[|frame|..] == [] && strict(next, []).More? && strict(state, []).More?;
      assert Run(strict, state, frame).ok;
      assert [] + frame == frame;
      forall chunks ensures SplitSafe(cut, limit, state, frame, chunks) {
        if Concat(chunks) == frame {
          ChunkingIsIrrelevant(cut, strict, limit, state, [], chunks);
        }
      }
    } else {
      var n := |frame| - 1;
      var w, last := frame[..n], frame[n..];
      LastByteApart(frame);
      assert [] + w == w && [] + last == last;
      FeedTwo(cut, limit, state, w, last);
      assert Run(cut, state, w).rest == w;
      assert frame[|frame|..] == [] && Run(cut, cut(state, frame).next, []).rest == [];
      assert cut(state, last).More?;
      assert !SplitSafe(cut, limit, state, frame, [w, last]);
    }
  }

  lemma FeedThree<S, E>(cut: Cutter<S, E>, limit: nat, state: S, a: seq<Byte>, b: seq<Byte>, c: seq<Byte>)
    ensures Concat([a, b, c]) == a + b + c
    ensures var first := Feed(cut, limit, state, [], a);
      var second := Feed(cut, limit, first.state, first.rest, b);
      var third := Feed(cut, limit, second.state, second.rest, c);
      FeedAll(cut, limit, state, [], [a, b, c]).out == first.out + second.out + third.out
  {
    var abc := [a, b, c];
    assert abc[1..] == [b, c] && [b, c][1..] == [c] && [c][1..] == [];
    assert Concat([c]) == c + [] == c && Concat([b, c]) == b + c && Concat(abc) == a + (b + c) == a + b + c;
    var first := Feed(cut, limit, state, [], a);
    var second := Feed(cut, limit, first.state, first.rest, b);
    var third := Feed(cut, limit, second.state, second.rest, c);
    var none := FeedAll(cut, limit, third.state, third.rest, []);
    assert FeedAll(cut, limit, second.state, second.rest, [c]).out == third.out + none.out == third.out;
    assert FeedAll(cut, limit, first.state, first.rest, [b, c]).out == second.out + third.out;
    ConcatAssociates(first.out, second.out, third.out);
  }

  /** A frame of which all but its end is incomplete and over the limit: it is cut in one piece,
      and lost when its end, which means nothing by itself, comes in a call of its own. */
  ghost predicate Losable<S, E>(
    cut: Cutter<S, E>, limit: nat, state: S, w: seq<Byte>, end: seq<Byte>, after: seq<Byte>, out: seq<E>)
  {
    && w != [] && end != [] && |w| > limit && cut(state, w).More?
    && cut(state, w + end + after) == Frame(|w + end|, state, out)
    && cut(state, end + after) == Frame(|end|, state, [])
  }

  lemma RunFrame<S, E>(cut: Cutter<S, E>, state: S, frame: seq<Byte>, after: seq<Byte>, out: seq<E>)
    requires frame != [] && cut(state, frame + after) == Frame(|frame|, state, out)
    ensures Run(cut, state, frame + after).out == out + Run(cut, state, after).out
  {
    assert (frame + after)[|frame|..] == after;
  }

  lemma FeedOverLimit<S, E>(cut: Cutter<S, E>, limit: nat, state: S, w: seq<Byte>)
    requires |w| > limit && cut(state, w).More?
    ensures Feed(cut, limit, state, [], w) == Parsed(state, [], [], true)
  {
    assert [] + w == w;
  }

  lemma FeedFresh<S, E>(cut: Cutter<S, E>, limit: nat, state: S, data: seq<Byte>)
    ensures var fed := Feed(cut, limit, state, [], data);
      && fed.state == Run(cut, state, data).state && fed.out == Run(cut, state, data).out
      && (Run(cut, state, data).rest == [] ==> fed.rest == [])
  {
    assert [] + data == data;
  }

  lemma FrameInOnePiece<S(!new), E>(
    cut: Cutter<S, E>, state: S, before: seq<Byte>, frame: seq<Byte>, after: seq<Byte>, out: seq<E>)
    requires Stable(cut) && frame != [] && cut(state, frame + after) == Frame(|frame|, state, out)
    requires Run(cut, state, before).ok && Run(cut, state, before).rest == [] && Run(cut, state, before).state == state
    ensures Run(cut, state, before + (frame + after)).out
      == Run(cut, state, before).out + (out + Run(cut, state, after).out)
  {
    RunSplit(cut, state, before, frame + after);
    RunFrame(cut, state, frame, after, out);
    assert [] + (frame + after) == frame + after;
  }

  lemma FrameIsLost<S(!new), E>(
    cut: Cutter<S, E>, limit: nat, state: S,
    before: seq<Byte>, w: seq<Byte>, end: seq<Byte>, after: seq<Byte>, out: seq<E>)
    requires Stable(cut) && Losable(cut, limit, state, w, end, after, out)
    requires Run(cut, state, before).ok && Run(cut, state, before).rest == [] && Run(cut, state, before).state == state
    ensures var first, others := Run(cut, state, before).out, Run(cut, state, after).out;
      && Concat([before, w, end + after]) == before + (w + end + after)
      && Run(cut, state, before + (w + end + after)).out == first + (out + others)
      && FeedAll(cut, limit, state, [], [before, w, end + after]).out == first + others
  {
    var first, others := Run(cut, state, before).out, Run(cut, state, after).out;
    assert before + w + (end + after) == before + (w + end + after);
    FrameInOnePiece(cut, state, before, w + end, after, out);
    FeedThree(cut, limit, state, before, w, end + after);
    FeedFresh(cut, limit, state, before);
    FeedOverLimit(cut, limit, state, w);
    FeedFresh(cut, limit, state, end + after);
    RunFrame(cut, state, end, after, []);
    assert [] + others == others && first + [] == first;
  }

  lemma LostIsUnsafe<S(!new), E>(
    cut: Cutter<S, E>, limit: nat, state: S,
    before: seq<Byte>, w: seq<Byte>, end: seq<Byte>, after: seq<Byte>, out: seq<E>)
    requires Stable(cut) && Losable(cut, limit, state, w, end, after, out) && out != []
    requires Run(cut, state, before).ok && Run(cut, state, before).rest == [] && Run(cut, state, before).state == state
    ensures !SplitSafe(cut, limit, state, before + (w + end + after), [before, w, end + after])
  {
    var first, others := Run(cut, state, before).out, Run(cut, state, after).out;
    FrameIsLost(cut, limit, state, before, w, end, after, out);
    assert |first + (out + others)| == |first + others| + |out|;
  }
}
