/** Streams of Redis commands: framing under every split, the lengths that end the process, and
    numbers as they are written. */
module RedisStreams {
  import opened Framing
  import opened AsciiText
  import opened RedisParser
  import opened RedisArgs
  import Utf8

  // ----- stability -----

  lemma ItemIsStable(a: seq<Byte>, b: seq<Byte>, base: nat)
    ensures !CutItem(a, base).Partial? ==> CutItem(a + b, base) == CutItem(a, base)
    ensures CutItem(a, base).Partial? && CutItem(a + b, base).Item? ==> CutItem(a + b, base).size > |a|
  {
    LineEndIsStable(a, b);
    if a != [] && a[0] == BULK && IndexCrlf(a) >= 0 {
      var end := IndexCrlf(a);
      assert CrlfAt(a, end);
      assert (a + b)[1..end] == a[1..end];
      if CutItem(a, base).Item? {
        var stop := CutItem(a, base).size - 2;
        assert (a + b)[end + 2..stop] == a[end + 2..stop];
      }
    }
  }

  lemma ItemAtIsStable(a: seq<Byte>, b: seq<Byte>, pos: nat)
    requires pos <= |a|
    ensures !ItemAt(a, pos).Partial? ==> ItemAt(a + b, pos) == ItemAt(a, pos)
    ensures ItemAt(a, pos).Partial? && ItemAt(a + b, pos).Item? ==> pos + ItemAt(a + b, pos).size > |a|
  {
    ItemAtIsCutItem(a, pos);
    ItemAtIsCutItem(a + b, pos);
    assert (a + b)[pos..] == a[pos..] + b;
    ItemIsStable(a[pos..], b, pos);
  }

  lemma {:induction false} ItemsAreStable(
    ra: (nat, nat) -> Items, rb: (nat, nat) -> Items, a: seq<Byte>, b: seq<Byte>, pos: nat, count: nat)
    requires IsReader(ra, a) && IsReader(rb, a + b) && pos <= |a|
    ensures !ra(pos, count).PartialItems? ==> rb(pos, count) == ra(pos, count)
    ensures ra(pos, count).PartialItems? && rb(pos, count).Items? ==> pos + rb(pos, count).size > |a|
    decreases count
  {
    if count == 0 {
      assert ReadsAt(ra, a, pos, 0) && ReadsAt(rb, a + b, pos, 0);
    } else {
      assert ReadsAt(ra, a, pos, count - 1) && ReadsAt(rb, a + b, pos, count - 1);
      ItemAtIsStable(a, b, pos);
      var item := ItemAt(a, pos);
      if item.Item? { ItemsAreStable(ra, rb, a, b, pos + item.size, count - 1); }
    }
  }

  /** How the verdict on more bytes depends on that on fewer. */
  ghost predicate Extends(fewer: Verdict, more: Verdict, n: nat) {
    && (fewer != Incomplete ==> more == fewer)
    && (fewer == Incomplete && (more.Skipped? || more.Accepted?) ==> more.size > n)
  }

  lemma ArrayIsStable(a: seq<Byte>, b: seq<Byte>, end: nat)
    requires 1 <= end && end + 2 <= |a|
    ensures Extends(ArrayVerdict(a, end), ArrayVerdict(a + b, end), |a|)
  {
    assert (a + b)[1..end] == a[1..end];
    var count := Atoi(a[1..end]);
    if count.Number? && 0 < count.value <= MAX_PARTS {
      ReadsItems(a);
      ReadsItems(a + b);
      ItemsAreStable(ItemsReader(a), ItemsReader(a + b), a, b, end + 2, count.value);
    }
  }

  lemma VerdictIsStable(a: seq<Byte>, b: seq<Byte>)
    ensures Extends(VerdictOn(a), VerdictOn(a + b), |a|)
  {
    LineEndIsStable(a, b);
    var end := IndexCrlf(a);
    if a != [] && end >= 0 {
      assert CrlfAt(a, end);
      if a[0] == ARRAY {
        ArrayIsStable(a, b, end);
      } else {
        assert (a + b)[..end] == a[..end];
      }
    } else {
      LateVerdictIsLong(a, b);
    }
  }

  /** A frame whose first line end is not in a reaches beyond a. */
  lemma LateVerdictIsLong(a: seq<Byte>, b: seq<Byte>)
    requires IndexCrlf(a) < 0
    ensures var more := VerdictOn(a + b); more.Skipped? || more.Accepted? ==> more.size > |a|
  {
    LineEndIsStable(a, b);
  }

  lemma CommandIsStable(health: Health, a: seq<Byte>, b: seq<Byte>)
    ensures StableAt(CutCommand, health, a, b) && LocalAt(CutCommand, health, a, b) && FirmAt(CutCommand, health, a, b)
  {
    VerdictIsStable(a, b);
    FrameWithinBuffer(a);
  }

  lemma CutIsStable()
    ensures Stable(CutCommand) && Local(CutCommand) && Slow(CutCommand) && Firm(CutCommand)
    ensures Dead(CutCommand, Panicked)
  {
    forall health, a, b
      ensures StableAt(CutCommand, health, a, b) && LocalAt(CutCommand, health, a, b)
      ensures FirmAt(CutCommand, health, a, b)
    {
      CommandIsStable(health, a, b);
    }
  }

  // ----- every split -----

  ghost function Strict(): Cutter<Health, Command> {
    Bounded(CutCommand, BUFFER_LIMIT)
  }

  /** Over a stream that is not malformed and whose commands fit the limit, all splits into
      calls of Feed give the one-shot parse. */
  lemma ChunkingIsIrrelevant(chunks: seq<seq<Byte>>)
    requires Run(Strict(), Alive, Concat(chunks)).ok
    ensures FeedAll(CutCommand, BUFFER_LIMIT, Alive, [], chunks) == Run(CutCommand, Alive, Concat(chunks))
  {
    CutIsStable();
    BoundedIsStable(CutCommand, BUFFER_LIMIT);
    assert [] + Concat(chunks) == Concat(chunks) && CutCommand(Alive, []).More?;
    Framing.ChunkingIsIrrelevant(CutCommand, Strict(), BUFFER_LIMIT, Alive, [], chunks);
  }

  /** On any stream, every split in which no call panics captures first what precedes the
      first command that is malformed or over the limit. */
  lemma OneShotIsPrefix(chunks: seq<seq<Byte>>)
    requires FeedAll(CutCommand, BUFFER_LIMIT, Alive, [], chunks).state.Alive?
    ensures Run(Strict(), Alive, Concat(chunks)).out <= FeedAll(CutCommand, BUFFER_LIMIT, Alive, [], chunks).out
  {
    CutIsStable();
    BoundedIsStable(CutCommand, BUFFER_LIMIT);
    assert [] + Concat(chunks) == Concat(chunks) && CutCommand(Alive, []).More?;
    Framing.OneShotIsPrefix(CutCommand, Strict(), BUFFER_LIMIT, Alive, [], chunks);
  }

  ghost predicate Fitting(stream: seq<Byte>) {
    NoneOversized(CutCommand, BUFFER_LIMIT, Alive, stream)
  }

  /** For a stream without an oversized command and without a length that ends the process:
      every split gives the one-shot parse exactly when nothing is malformed before the last
      byte. */
  lemma SplittingSafeIffNotMalformed(stream: seq<Byte>)
    requires Fitting(stream) && (stream != [] ==> Fitting(stream[..|stream| - 1]))
    requires Run(CutCommand, Alive, stream).state.Alive?
    ensures (forall chunks :: SplitSafe(CutCommand, BUFFER_LIMIT, Alive, stream, chunks))
      <==> NotRejectedEarly(CutCommand, Alive, stream)
  {
    CutIsStable();
    BoundedIsStable(CutCommand, BUFFER_LIMIT);
    LimitRejectsNothing(CutCommand, BUFFER_LIMIT, Alive, stream);
    if stream != [] { LimitRejectsNothing(CutCommand, BUFFER_LIMIT, Alive, stream[..|stream| - 1]); }
    assert CutCommand(Alive, []).More?;
    SplitSafeIffNotRejectedEarly(CutCommand, Strict(), BUFFER_LIMIT, Alive, stream);
  }

  /** An array whose item is not a bulk string, then one more byte: the one-shot parse discards
      that byte, and a call that starts with it keeps it. */
  lemma MalformedDependsOnSplit()
    ensures var stream: seq<Byte> := [0x2a, 49, 13, 10, 43, 49];
      && Fitting(stream) && Fitting(stream[..5]) && Run(CutCommand, Alive, stream).state.Alive?
      && exists chunks :: !SplitSafe(CutCommand, BUFFER_LIMIT, Alive, stream, chunks)
  {
    var stream: seq<Byte> := [0x2a, 49, 13, 10, 43, 49];
    assert stream == [0x2a] + Itoa(1) + [13, 10] + [43, 49];
    assert stream[..5] == Line(0x2a, 1) + [43];
    ReadLine(0x2a, 1, [43, 49]);
    ReadLine(0x2a, 1, [43]);
    assert CutItems([43, 49], 4, 1) == BrokenItems && CutItems([43], 4, 1) == BrokenItems;
    assert VerdictOn(stream) == Malformed && VerdictOn(stream[..5]) == Malformed;
    assert stream[..|stream| - 1] == stream[..5];
    SplittingSafeIffNotMalformed(stream);
  }

  // ----- lengths that end the process -----

  /** A bulk header at position base whose length n makes the end of the item, base plus the
      header plus n plus 2, exceed 64 bits. */
  predicate BulkOverflows(item: seq<Byte>, base: nat) {
    && item != [] && item[0] == BULK && IndexCrlf(item) >= 1
    && var n := Atoi(item[1..IndexCrlf(item)]);
      n.Number? && n.value >= 0 && base + IndexCrlf(item) + 2 + n.value + 2 > MAX_INT
  }

  /** One of the count bulk headers from pos on overflows, and the items before it are complete. */
  predicate SomeOverflows(data: seq<Byte>, pos: nat, count: nat)
    requires pos <= |data|
    decreases count
  {
    count > 0 &&
    (BulkOverflows(data[pos..], pos)
     || var item := ItemAt(data, pos);
        item.Item? && pos + item.size <= |data| && SomeOverflows(data, pos + item.size, count - 1))
  }

  lemma OverflowIff(data: seq<Byte>, pos: nat)
    requires pos <= |data|
    ensures ItemAt(data, pos).Overflow? <==> BulkOverflows(data[pos..], pos)
  {
    ItemAtIsCutItem(data, pos);
    var rest := data[pos..];
    if rest != [] && rest[0] == BULK && IndexCrlf(rest) >= 0 { assert CrlfAt(rest, IndexCrlf(rest)); }
  }

  lemma {:induction false} ItemsOverflowIff(reader: (nat, nat) -> Items, data: seq<Byte>, pos: nat, count: nat)
    requires IsReader(reader, data) && pos <= |data|
    ensures reader(pos, count).OverflowItems? <==> SomeOverflows(data, pos, count)
    decreases count
  {
    if count == 0 {
      assert ReadsAt(reader, data, pos, 0);
    } else {
      assert ReadsAt(reader, data, pos, count - 1);
      OverflowIff(data, pos);
      var item := ItemAt(data, pos);
      if item.Item? { ItemsOverflowIff(reader, data, pos + item.size, count - 1); }
    }
  }

  /** The front of a buffer ends the process exactly when it is a complete array header whose
      count cannot be allocated, or one of whose bulk headers, reached over complete items,
      announces an end beyond 64 bits. */
  lemma PanicsIff(data: seq<Byte>)
    ensures VerdictOn(data) == Panics <==>
      && data != [] && data[0] == ARRAY && IndexCrlf(data) >= 1
      && var end := IndexCrlf(data); var count := Atoi(data[1..end]);
        && count.Number? && count.value > 0 && end + 2 <= |data|
        && (count.value > MAX_PARTS || SomeOverflows(data, end + 2, count.value))
  {
    var end := IndexCrlf(data);
    if data != [] && data[0] == ARRAY && end >= 0 {
      assert CrlfAt(data, end);
      var count := Atoi(data[1..end]);
      if count.Number? && 0 < count.value <= MAX_PARTS {
        ReadsItems(data);
        ItemsOverflowIff(ItemsReader(data), data, end + 2, count.value);
      }
    }
  }

  lemma PanicsAtOnce(data: seq<Byte>)
    requires VerdictOn(data) == Panics
    ensures FeedAll(CutCommand, BUFFER_LIMIT, Alive, [], [data]).state == Panicked
  {
    assert [] + data == data;
    CutIsStable();
    DeadStaysDead(CutCommand, BUFFER_LIMIT, Panicked, [], [data][1..]);
  }

  /** The largest 64-bit length, announced by the one item of an array: the call does not return. */
  lemma LargestLengthPanics()
    ensures FeedAll(CutCommand, BUFFER_LIMIT, Alive, [], [Line(0x2a, 1) + Line(0x24, MAX_INT)]).state == Panicked
  {
    var header, bulk := Line(0x2a, 1), Line(0x24, MAX_INT);
    var data := header + bulk;
    ReadLine(0x2a, 1, bulk);
    ReadLine(0x24, MAX_INT, []);
    assert bulk + [] == bulk == data[|header|..];
    OverflowIff(data, |header|);
    ReadsItems(data);
    assert ReadsAt(ItemsReader(data), data, |header|, 0);
    VerdictAfterHeader(1, bulk);
    PanicsAtOnce(data);
  }

  /** So does the largest 64-bit count. */
  lemma LargestCountPanics()
    ensures FeedAll(CutCommand, BUFFER_LIMIT, Alive, [], [Line(0x2a, MAX_INT)]).state == Panicked
  {
    var data := Line(0x2a, MAX_INT);
    ReadLine(0x2a, MAX_INT, []);
    assert data + [] == data;
    PanicsAtOnce(data);
  }

  /** When the last byte of doomed completes such a header, and nothing before it is malformed
      or over the limit, every split of doomed and whatever follows ends the process. */
  lemma PanicIsCertain(doomed: seq<Byte>, after: seq<Byte>, chunks: seq<seq<Byte>>)
    requires doomed != [] && Run(Strict(), Alive, doomed[..|doomed| - 1]).ok
    requires Run(CutCommand, Alive, doomed).state.Panicked?
    requires Concat(chunks) == doomed + after
    ensures FeedAll(CutCommand, BUFFER_LIMIT, Alive, [], chunks).state.Panicked?
  {
    CutIsStable();
    BoundedIsStable(CutCommand, BUFFER_LIMIT);
    AliveWhenOk(doomed);
    assert [] + Concat(chunks) == doomed + after && CutCommand(Alive, []).More?;
    DeathIsCertain(CutCommand, Strict(), BUFFER_LIMIT, Alive, [], chunks, doomed, after);
  }

  lemma {:induction false} AliveWhenOk(buf: seq<Byte>)
    ensures Run(CutCommand, Alive, buf).ok ==> Run(CutCommand, Alive, buf).state.Alive?
    decreases |buf|
  {
    FrameWithinBuffer(buf);
    if CutCommand(Alive, buf).Frame? { AliveWhenOk(buf[CutCommand(Alive, buf).size..]); }
  }

  /** Every decimal number in the bytes is one that a slice can be made of. */
  ghost predicate Modest(data: seq<Byte>) {
    forall i: nat, j: nat :: ModestAt(data, i, j)
  }

  ghost predicate ModestAt(data: seq<Byte>, i: nat, j: nat) {
    i <= j <= |data| && Atoi(data[i..j]).Number? ==> Atoi(data[i..j]).value <= MAX_PARTS
  }

  lemma ModestSuffix(data: seq<Byte>, lo: nat)
    requires Modest(data) && lo <= |data|
    ensures Modest(data[lo..])
  {
    forall i: nat, j: nat ensures ModestAt(data[lo..], i, j) {
      if i <= j <= |data| - lo {
        assert ModestAt(data, lo + i, lo + j);
        assert data[lo..][i..j] == data[lo + i..lo + j];
      }
    }
  }

  lemma ModestPrefix(data: seq<Byte>, more: seq<Byte>)
    requires Modest(data + more)
    ensures Modest(data)
  {
    forall i: nat, j: nat ensures ModestAt(data, i, j) {
      if i <= j <= |data| {
        assert ModestAt(data + more, i, j);
        assert (data + more)[i..j] == data[i..j];
      }
    }
  }

  lemma ModestBulk(data: seq<Byte>, pos: nat)
    requires Modest(data) && pos <= |data| && |data| + 2 + MAX_PARTS <= MAX_INT
    ensures !ItemAt(data, pos).Overflow?
  {
    OverflowIff(data, pos);
    var rest := data[pos..];
    if IndexCrlf(rest) >= 1 {
      assert CrlfAt(rest, IndexCrlf(rest));
      assert ModestAt(data, pos + 1, pos + IndexCrlf(rest));
      assert rest[1..IndexCrlf(rest)] == data[pos + 1..pos + IndexCrlf(rest)];
    }
  }

  lemma {:induction false} ModestItems(reader: (nat, nat) -> Items, data: seq<Byte>, pos: nat, count: nat)
    requires IsReader(reader, data) && pos <= |data|
    requires Modest(data) && |data| + 2 + MAX_PARTS <= MAX_INT
    ensures !reader(pos, count).OverflowItems?
    decreases count
  {
    if count == 0 {
      assert ReadsAt(reader, data, pos, 0);
    } else {
      assert ReadsAt(reader, data, pos, count - 1);
      ModestBulk(data, pos);
      var item := ItemAt(data, pos);
      if item.Item? { ModestItems(reader, data, pos + item.size, count - 1); }
    }
  }

  lemma ModestFront(data: seq<Byte>)
    requires Modest(data) && |data| + 2 + MAX_PARTS <= MAX_INT
    ensures VerdictOn(data) != Panics
  {
    var end := IndexCrlf(data);
    if data != [] && data[0] == ARRAY && end >= 0 {
      assert CrlfAt(data, end);
      assert ModestAt(data, 1, end);
      if Atoi(data[1..end]).Number? && Atoi(data[1..end]).value > 0 {
        ReadsItems(data);
        ModestItems(ItemsReader(data), data, end + 2, Atoi(data[1..end]).value);
      }
    }
  }

  lemma {:induction false} ModestRun(data: seq<Byte>)
    requires Modest(data) && |data| + 2 + MAX_PARTS <= MAX_INT
    ensures LeavesSuffix(CutCommand, data)
    decreases |data|
  {
    ModestFront(data);
    FrameWithinBuffer(data);
    assert data[|data|..] == [];
    if CutCommand(Alive, data).Frame? {
      var size := CutCommand(Alive, data).size;
      ModestSuffix(data, size);
      ModestRun(data[size..]);
      var rest := Run(CutCommand, Alive, data[size..]).rest;
      assert data[size..][|data| - size - |rest|..] == data[|data| - |rest|..];
    }
  }

  /** What a parse that cuts no more than a prefix leaves. */
  ghost predicate LeavesSuffix(cut: Cutter<Health, Command>, data: seq<Byte>) {
    var r := Run(cut, Alive, data);
    r.state.Alive? && |r.rest| <= |data| && r.rest == data[|data| - |r.rest|..]
  }

  lemma ModestFeed(cut: Cutter<Health, Command>, buf: seq<Byte>, chunk: seq<Byte>, more: seq<Byte>)
    requires Modest(buf + chunk + more) && LeavesSuffix(cut, buf + chunk)
    ensures var fed := Feed(cut, BUFFER_LIMIT, Alive, buf, chunk);
      && fed.state.Alive? && |fed.rest + more| <= |buf + chunk + more| && Modest(fed.rest + more)
  {
    var a := buf + chunk;
    var rest := Feed(cut, BUFFER_LIMIT, Alive, buf, chunk).rest;
    var gone := |a| - |rest|;
    assert (a + more)[gone..] == rest + more;
    ModestSuffix(a + more, gone);
  }

  /** A stream whose decimal numbers are all modest ends the process under no split. */
  lemma {:induction false} ModestNeverPanics(buf: seq<Byte>, chunks: seq<seq<Byte>>)
    requires Modest(buf + Concat(chunks)) && |buf + Concat(chunks)| + 2 + MAX_PARTS <= MAX_INT
    ensures FeedAll(CutCommand, BUFFER_LIMIT, Alive, buf, chunks).state.Alive?
    decreases |chunks|
  {
    if chunks != [] {
      var more := Concat(chunks[1..]);
      ConcatAssociates(buf, chunks[0], more);
      ModestPrefix(buf + chunks[0], more);
      ModestRun(buf + chunks[0]);
      ModestFeed(CutCommand, buf, chunks[0], more);
      ModestNeverPanics(Feed(CutCommand, BUFFER_LIMIT, Alive, buf, chunks[0]).rest, chunks[1..]);
    }
  }

  // ----- lines with a number -----

  function Itoa(n: nat): seq<Byte> {
    if n < 10 then [48 + n] else Itoa(n / 10) + [48 + n % 10]
  }

  function Line(kind: Byte, n: nat): seq<Byte> {
    [kind] + Itoa(n) + [13, 10]
  }

  lemma {:induction false} DigitsOfItoa(n: nat)
    ensures Itoa(n) != [] && Digits(Itoa(n)) && DigitsValue(Itoa(n)) == n
    decreases n
  {
    var s := Itoa(n);
    if n < 10 {
      assert s[..0] == [];
    } else {
      DigitsOfItoa(n / 10);
      assert s[..|s| - 1] == Itoa(n / 10);
    }
  }

  lemma AtoiOfItoa(n: nat)
    requires n <= MAX_INT
    ensures Atoi(Itoa(n)) == Number(n) && CR !in Itoa(n)
  {
    DigitsOfItoa(n);
    var s := Itoa(n);
    assert s[0] in s;
  }

  lemma ReadLine(kind: Byte, n: nat, rest: seq<Byte>)
    requires n <= MAX_INT && kind != CR
    ensures var line := Line(kind, n); var data := line + rest;
      && IndexCrlf(data) == |line| - 2 && data[0] == kind
      && Atoi(data[1..|line| - 2]) == Number(n) && data[|line|..] == rest
  {
    AtoiOfItoa(n);
    CrlfAfterPlain([kind] + Itoa(n), rest);
    assert (Line(kind, n) + rest)[1..|Line(kind, n)| - 2] == Itoa(n);
  }

  /** What follows a header line is read as its items. */
  lemma VerdictAfterHeader(count: nat, rest: seq<Byte>)
    requires 0 < count <= MAX_PARTS
    ensures var header := Line(0x2a, count); var data := header + rest;
      VerdictOn(data) == ItemsReader(data)(|header|, count).AsVerdict(|header|)
  {
    ReadLine(0x2a, count, rest);
  }
}
