/** Requests written as arrays of bulk strings or as inline lines, and what is reported of them
    under every fragmentation. Bytes and letters are written out, as the protocol has them. */
module RedisRoundTrip {
  import opened Framing
  import opened AsciiText
  import opened RedisArgs
  import opened RedisParser
  import opened RedisStreams
  import Utf8

  // ----- what is sent -----

  function EncodeBulk(part: seq<Byte>): seq<Byte> {
    Line(0x24, |part|) + (part + [13, 10])
  }

  function EncodeBulks(parts: Parts): seq<Byte> {
    if parts == [] then [] else EncodeBulk(parts[0]) + EncodeBulks(parts[1..])
  }

  function EncodeArray(parts: Parts): seq<Byte> {
    Line(0x2a, |parts|) + EncodeBulks(parts)
  }

  /** An array of bulk strings, or words on a line with blanks around and between them. */
  datatype Request = Bulks(parts: Parts) | Inline(gaps: seq<Text>, words: seq<Text>)

  function Encode(r: Request): seq<Byte> {
    match r
    case Bulks(parts) => EncodeArray(parts)
    case Inline(gaps, words) => (if |gaps| == |words| + 1 then Spread(gaps, words) else []) + [13, 10]
  }

  /** An array that can be allocated; a line of words that holds no carriage return and does not
      begin like an array. */
  ghost predicate Sendable(r: Request) {
    match r
    case Bulks(parts) => |EncodeArray(parts)| <= MAX_INT && |parts| <= MAX_PARTS
    case Inline(gaps, words) =>
      && WellSpread(gaps, words)
      && 13 !in Spread(gaps, words) && (Spread(gaps, words) != [] ==> Spread(gaps, words)[0] != 0x2a)
  }

  // ----- what is reported -----

  function InUpperCase(s: Text): Text {
    seq(|s|, i requires 0 <= i < |s| => if 97 <= s[i] <= 122 then s[i] - 32 else s[i])
  }

  /** A command named by the first part, in upper case and without the blanks around it, unless
      there is none, it is blank, or it is no text; the other parts are its arguments. */
  function Stated(parts: Parts): seq<Command> {
    if parts == [] || !Utf8.Valid(parts[0]) || Ink(parts[0]) == [] then []
    else [Command(name := InUpperCase(Ink(parts[0])), args := EncodeArgs(parts[1..]))]
  }

  function StatedBy(r: Request): seq<Command> {
    match r
    case Bulks(parts) => Stated(parts)
    case Inline(_, words) =>
      if words == [] || !Utf8.Valid(words[0]) then []
      else [Command(name := InUpperCase(words[0]), args := EncodeArgs(words[1..]))]
  }

  lemma BuiltIsStated(parts: Parts)
    ensures Built(parts) == Stated(parts)
  {
    if parts != [] {
      TrimSpaceIsInk(parts[0]);
      assert ToUpper(Ink(parts[0])) == InUpperCase(Ink(parts[0]));
    }
  }

  // ----- arrays -----

  lemma CutEncodedBulk(part: seq<Byte>, more: seq<Byte>, base: nat)
    requires base + |EncodeBulk(part)| <= MAX_INT
    ensures CutItem(EncodeBulk(part) + more, base) == Item(|EncodeBulk(part)|, part)
    ensures (EncodeBulk(part) + more)[|EncodeBulk(part)|..] == more
  {
    var line, tail := Line(0x24, |part|), part + [13, 10];
    var data := EncodeBulk(part) + more;
    ConcatAssociates(line, tail, more);
    ReadLine(0x24, |part|, tail + more);
    var start, stop := |line|, |line| + |part|;
    assert data[start..stop] == (tail + more)[..|part|] == part;
  }

  lemma EncodedBulkAt(data: seq<Byte>, pos: nat, part: seq<Byte>)
    requires At(data, pos, EncodeBulk(part)) && pos + |EncodeBulk(part)| <= MAX_INT
    ensures ItemAt(data, pos) == Item(|EncodeBulk(part)|, part)
  {
    ItemAtIsCutItem(data, pos);
    var more := data[pos + |EncodeBulk(part)|..];
    assert data[pos..] == EncodeBulk(part) + more;
    CutEncodedBulk(part, more, pos);
  }

  lemma {:induction false} BulksReadBack(reader: (nat, nat) -> Items, data: seq<Byte>, pos: nat, parts: Parts)
    requires IsReader(reader, data) && At(data, pos, EncodeBulks(parts)) && pos + |EncodeBulks(parts)| <= MAX_INT
    ensures reader(pos, |parts|) == Items(|EncodeBulks(parts)|, parts)
    decreases |parts|
  {
    if parts == [] {
      assert ReadsAt(reader, data, pos, 0);
    } else {
      FirstBulk(data, pos, parts);
      EncodedBulkAt(data, pos, parts[0]);
      assert ReadsAt(reader, data, pos, |parts| - 1);
      BulksReadBack(reader, data, pos + |EncodeBulk(parts[0])|, parts[1..]);
      assert parts == [parts[0]] + parts[1..];
    }
  }

  lemma FirstBulk(data: seq<Byte>, pos: nat, parts: Parts)
    requires parts != [] && At(data, pos, EncodeBulks(parts))
    ensures At(data, pos, EncodeBulk(parts[0]))
    ensures At(data, pos + |EncodeBulk(parts[0])|, EncodeBulks(parts[1..]))
  {
    AtSplit(data, pos, EncodeBulk(parts[0]), EncodeBulks(parts[1..]));
  }

  lemma CutArray(parts: Parts, more: seq<Byte>)
    requires |EncodeArray(parts)| <= MAX_INT && |parts| <= MAX_PARTS
    ensures CutCommand(Alive, EncodeArray(parts) + more) == Frame(|EncodeArray(parts)|, Alive, Built(parts))
  {
    var line, bulks := Line(0x2a, |parts|), EncodeBulks(parts);
    var data := EncodeArray(parts) + more;
    ConcatAssociates(line, bulks, more);
    if parts == [] {
      ReadLine(0x2a, 0, bulks + more);
    } else {
      VerdictAfterHeader(|parts|, bulks + more);
      ReadsItems(data);
      assert data[|line|..|line| + |bulks|] == bulks;
      BulksReadBack(ItemsReader(data), data, |line|, parts);
    }
  }

  // ----- lines -----

  lemma LineVerdict(gaps: seq<Text>, words: seq<Text>, more: seq<Byte>)
    requires WellSpread(gaps, words)
    ensures var line := Spread(gaps, words);
      InlineVerdict(line + [13, 10] + more, |line|)
        == if words == [] then Skipped(|line| + 2) else Accepted(|line| + 2, words)
  {
    var line := Spread(gaps, words);
    assert (line + [13, 10] + more)[..|line|] == line;
    FieldsOfSpread(gaps, words);
    FieldsOfTrimSpace(line);
    TrimmedEmptyIffNoFields(line);
  }

  lemma CutLine(gaps: seq<Text>, words: seq<Text>, more: seq<Byte>)
    requires Sendable(Inline(gaps, words))
    ensures var line := Spread(gaps, words);
      CutCommand(Alive, line + [13, 10] + more) == Frame(|line| + 2, Alive, Built(words))
  {
    var line := Spread(gaps, words);
    var data := line + [13, 10] + more;
    CrlfAfterPlain(line, more);
    assert data[0] != ARRAY;
    LineVerdict(gaps, words, more);
  }

  lemma WordsAreStated(gaps: seq<Text>, words: seq<Text>)
    requires WellSpread(gaps, words)
    ensures Built(words) == StatedBy(Inline(gaps, words))
  {
    BuiltIsStated(words);
    if words != [] {
      var w := words[0];
      assert w[0] in w && w[|w| - 1] in w;
      assert Ink(w) == w;
    }
  }

  lemma CutEncoded(r: Request, more: seq<Byte>)
    requires Sendable(r)
    ensures CutCommand(Alive, Encode(r) + more) == Frame(|Encode(r)|, Alive, StatedBy(r))
    ensures (Encode(r) + more)[|Encode(r)|..] == more
  {
    match r
    case Bulks(parts) =>
      CutArray(parts, more);
      BuiltIsStated(parts);
    case Inline(gaps, words) =>
      CutLine(gaps, words, more);
      WordsAreStated(gaps, words);
  }

  // ----- streams -----

  ghost function EncodeAll(requests: seq<Request>): seq<Byte> {
    if requests == [] then [] else Encode(requests[0]) + EncodeAll(requests[1..])
  }

  ghost function Reported(requests: seq<Request>): seq<Command> {
    if requests == [] then [] else StatedBy(requests[0]) + Reported(requests[1..])
  }

  lemma {:induction false} BulksOutnumbered(parts: Parts)
    ensures |parts| <= |EncodeBulks(parts)|
    decreases |parts|
  {
    if parts != [] { BulksOutnumbered(parts[1..]); }
  }

  /** At most one byte over the limit, encoded. */
  ghost predicate Fits(requests: seq<Request>) {
    forall i :: 0 <= i < |requests| ==> FitsOne(requests[i])
  }

  ghost predicate FitsOne(r: Request) {
    Sendable(r) && |Encode(r)| <= BUFFER_LIMIT + 1
  }

  lemma ShortArrayIsSendable(parts: Parts)
    requires |EncodeArray(parts)| <= BUFFER_LIMIT + 1
    ensures Sendable(Bulks(parts)) && FitsOne(Bulks(parts))
  {
    BulksOutnumbered(parts);
  }

  lemma CutStrictly(r: Request, more: seq<Byte>)
    requires FitsOne(r)
    ensures Strict()(Alive, Encode(r) + more) == Frame(|Encode(r)|, Alive, StatedBy(r))
    ensures (Encode(r) + more)[|Encode(r)|..] == more && |Encode(r)| > 0
  {
    CutEncoded(r, more);
    EndsWithLineEnd(r);
  }

  lemma {:induction false} RunEncoded(requests: seq<Request>)
    requires Fits(requests)
    ensures Run(Strict(), Alive, EncodeAll(requests)) == Framing.Parsed(Alive, [], Reported(requests), true)
    decreases |requests|
  {
    if requests != [] {
      CutStrictly(requests[0], EncodeAll(requests[1..]));
      RunEncoded(requests[1..]);
    } else {
      assert Strict()(Alive, []).More?;
    }
  }

  /** Arrays and lines in any order, each at most one byte over the limit encoded, are reported
      one by one under every fragmentation, unless their name is blank or no text, and none ends
      the process. */
  lemma FragmentedRoundTrip(requests: seq<Request>, chunks: seq<seq<Byte>>)
    requires Fits(requests) && Concat(chunks) == EncodeAll(requests)
    ensures FeedAll(CutCommand, BUFFER_LIMIT, Alive, [], chunks) == Framing.Parsed(Alive, [], Reported(requests), true)
  {
    RunEncoded(requests);
    CutIsStable();
    BoundedIsStable(CutCommand, BUFFER_LIMIT);
    RunRefined(Strict(), CutCommand, BUFFER_LIMIT, Alive, Concat(chunks));
    RedisStreams.ChunkingIsIrrelevant(chunks);
  }

  /** Words on a line: the first is the name of the one command reported, and the others are its
      arguments. */
  lemma LineIsReported(gaps: seq<Text>, words: seq<Text>, chunks: seq<seq<Byte>>)
    requires Sendable(Inline(gaps, words)) && |Spread(gaps, words)| + 2 <= BUFFER_LIMIT + 1
    requires words != [] && forall i :: 0 <= i < |words| ==> Utf8.Valid(words[i])
    requires Concat(chunks) == Spread(gaps, words) + [13, 10]
    ensures FeedAll(CutCommand, BUFFER_LIMIT, Alive, [], chunks).out == [Command(InUpperCase(words[0]), words[1..])]
  {
    var requests := [Inline(gaps, words)];
    assert requests[1..] == [] && EncodeAll(requests) == Encode(requests[0]) + [];
    assert Reported(requests) == StatedBy(requests[0]) + [];
    assert EncodeArgs(words[1..]) == words[1..];
    FragmentedRoundTrip(requests, chunks);
  }

  /** A command of texts, the first of which is a name in upper case, is reported as it went in. */
  lemma TextsAreReported(parts: Parts)
    requires parts != [] && (forall i :: 0 <= i < |parts| ==> Utf8.Valid(parts[i]))
    requires parts[0] != [] && Ink(parts[0]) == parts[0] && InUpperCase(parts[0]) == parts[0]
    ensures StatedBy(Bulks(parts)) == [Command(parts[0], parts[1..])]
  {
    assert EncodeArgs(parts[1..]) == parts[1..];
  }

  /** One request survives every fragmentation exactly when it is at most one byte over. */
  lemma FragmentationSafeIffFits(r: Request)
    requires Sendable(r)
    ensures (forall chunks :: SplitSafe(CutCommand, BUFFER_LIMIT, Alive, Encode(r), chunks))
      <==> |Encode(r)| <= BUFFER_LIMIT + 1
  {
    var e := Encode(r);
    assert e + [] == e;
    CutEncoded(r, []);
    EndsWithLineEnd(r);
    FrameSafeIffFits(e);
  }

  lemma FrameSafeIffFits(frame: seq<Byte>)
    requires frame != [] && CutCommand(Alive, frame).Frame? && CutCommand(Alive, frame).size == |frame|
    ensures (forall chunks :: SplitSafe(CutCommand, BUFFER_LIMIT, Alive, frame, chunks))
      <==> |frame| <= BUFFER_LIMIT + 1
  {
    WholeFrameOnly(frame);
    CutIsStable();
    OneFrameSplitSafeIffFits(CutCommand, BUFFER_LIMIT, Alive, frame);
  }

  lemma WholeFrameOnly(frame: seq<Byte>)
    requires frame != [] && CutCommand(Alive, frame).Frame? && CutCommand(Alive, frame).size == |frame|
    ensures CutCommand(Alive, frame[..|frame| - 1]).More?
  {
    var w, last := frame[..|frame| - 1], frame[|frame| - 1..];
    assert w + last == frame;
    CommandIsStable(Alive, w, last);
  }

  // ----- oversized requests in a stream -----

  /** All but the last two bytes of a request are incomplete. */
  lemma AllButLineEnd(r: Request)
    requires Sendable(r) && |Encode(r)| >= 2
    ensures CutCommand(Alive, Encode(r)[..|Encode(r)| - 2]).More?
  {
    var e := Encode(r);
    var w, end := e[..|e| - 2], e[|e| - 2..];
    assert w + end == e && e + [] == e;
    CutEncoded(r, []);
    CommandIsStable(Alive, w, end);
  }

  lemma EndsWithLineEnd(r: Request)
    ensures |Encode(r)| >= 2 && Encode(r)[|Encode(r)| - 2..] == [13, 10]
  {
    match r
    case Bulks(parts) =>
      if parts == [] { assert EncodeBulks(parts) == []; } else { BulksEndWithLineEnd(parts); }
    case Inline(_, _) =>
  }

  lemma {:induction false} BulksEndWithLineEnd(parts: Parts)
    requires parts != []
    ensures |EncodeBulks(parts)| >= 2 && EncodeBulks(parts)[|EncodeBulks(parts)| - 2..] == [13, 10]
    decreases |parts|
  {
    if |parts| == 1 {
      assert EncodeBulks(parts[1..]) == [];
    } else {
      BulksEndWithLineEnd(parts[1..]);
    }
  }

  /** A line end in front of other bytes is skipped. */
  lemma LineEndIsSkipped(after: seq<Byte>)
    ensures CutCommand(Alive, [13, 10] + after) == Frame(2, Alive, [])
  {
    var data: seq<Byte> := [13, 10] + after;
    assert CrlfAt(data, 0);
    FirstCrlf(data, 0);
    assert data[..0] == [];
    assert VerdictOn(data) == Skipped(2);
  }

  lemma OversizedIsLosable(r: Request, after: seq<Byte>)
    requires Sendable(r) && BUFFER_LIMIT + 2 < |Encode(r)|
    ensures var e := Encode(r);
      && e == e[..|e| - 2] + [13, 10]
      && Losable(CutCommand, BUFFER_LIMIT, Alive, e[..|e| - 2], [13, 10], after, StatedBy(r))
  {
    var e := Encode(r);
    EndsWithLineEnd(r);
    assert e == e[..|e| - 2] + [13, 10];
    AllButLineEnd(r);
    LineEndIsSkipped(after);
    CutEncoded(r, after);
  }

  /** Behind requests that fit and before any bytes at all, a request of more than the limit and
      two bytes is parsed in one piece, and lost when its line end comes in a call of its own. */
  lemma OversizedIsLost(before: seq<Request>, r: Request, after: seq<Byte>)
    requires Fits(before) && Sendable(r) && BUFFER_LIMIT + 2 < |Encode(r)|
    ensures
      var e := Encode(r);
      var chunks := [EncodeAll(before), e[..|e| - 2], [13, 10] + after];
      var others := Run(CutCommand, Alive, after).out;
      && Concat(chunks) == EncodeAll(before) + (e + after)
      && Run(CutCommand, Alive, EncodeAll(before) + (e + after)).out == Reported(before) + (StatedBy(r) + others)
      && FeedAll(CutCommand, BUFFER_LIMIT, Alive, [], chunks).out == Reported(before) + others
  {
    var e := Encode(r);
    PlainRunEncoded(before);
    OversizedIsLosable(r, after);
    CutIsStable();
    FrameIsLost(CutCommand, BUFFER_LIMIT, Alive, EncodeAll(before), e[..|e| - 2], [13, 10], after, StatedBy(r));
  }

  lemma PlainRunEncoded(requests: seq<Request>)
    requires Fits(requests)
    ensures Run(CutCommand, Alive, EncodeAll(requests)) == Framing.Parsed(Alive, [], Reported(requests), true)
  {
    RunEncoded(requests);
    CutIsStable();
    BoundedIsStable(CutCommand, BUFFER_LIMIT);
    RunRefined(Strict(), CutCommand, BUFFER_LIMIT, Alive, EncodeAll(requests));
  }

  /** A request that is reported, and whose size is not that of the limit and two bytes. */
  ghost predicate Ordinary(r: Request) {
    StatedBy(r) != [] && Sendable(r) && |Encode(r)| != BUFFER_LIMIT + 2
  }

  /** Streams of such requests survive every fragmentation exactly when all of them fit. */
  lemma StreamSafeIffFits(requests: seq<Request>)
    requires forall i :: 0 <= i < |requests| ==> Ordinary(requests[i])
    ensures (forall chunks :: SplitSafe(CutCommand, BUFFER_LIMIT, Alive, EncodeAll(requests), chunks))
      <==> forall i :: 0 <= i < |requests| ==> |Encode(requests[i])| <= BUFFER_LIMIT + 1
  {
    if exists i :: 0 <= i < |requests| && |Encode(requests[i])| > BUFFER_LIMIT + 1 {
      var i := FirstOversized(requests);
      var chunks := OversizedIsUnsafe(requests[..i], requests[i], EncodeAll(requests[i + 1..]));
      EncodeAllSplit(requests, i);
    } else {
      assert Fits(requests);
      forall chunks ensures SplitSafe(CutCommand, BUFFER_LIMIT, Alive, EncodeAll(requests), chunks) {
        if Concat(chunks) == EncodeAll(requests) {
          FragmentedRoundTrip(requests, chunks);
          PlainRunEncoded(requests);
        }
      }
    }
  }

  lemma OversizedIsUnsafe(before: seq<Request>, r: Request, after: seq<Byte>) returns (chunks: seq<seq<Byte>>)
    requires Fits(before) && Ordinary(r) && |Encode(r)| > BUFFER_LIMIT + 1
    ensures !SplitSafe(CutCommand, BUFFER_LIMIT, Alive, EncodeAll(before) + (Encode(r) + after), chunks)
  {
    var e := Encode(r);
    chunks := [EncodeAll(before), e[..|e| - 2], [13, 10] + after];
    PlainRunEncoded(before);
    OversizedIsLosable(r, after);
    CutIsStable();
    LostIsUnsafe(CutCommand, BUFFER_LIMIT, Alive, EncodeAll(before), e[..|e| - 2], [13, 10], after, StatedBy(r));
  }

  lemma {:induction false} FirstOversized(requests: seq<Request>) returns (i: nat)
    requires forall i :: 0 <= i < |requests| ==> Sendable(requests[i])
    requires !Fits(requests)
    ensures i < |requests| && |Encode(requests[i])| > BUFFER_LIMIT + 1 && Fits(requests[..i])
    decreases |requests|
  {
    if |Encode(requests[0])| > BUFFER_LIMIT + 1 {
      i := 0;
    } else {
      var j := FirstOversized(requests[1..]);
      i := j + 1;
      forall k | 0 <= k < i ensures FitsOne(requests[..i][k]) {
        if k > 0 { assert requests[..i][k] == requests[1..][..j][k - 1]; }
      }
    }
  }

  lemma {:induction false} EncodeAllSplit(requests: seq<Request>, i: nat)
    requires i < |requests|
    ensures EncodeAll(requests) == EncodeAll(requests[..i]) + (Encode(requests[i]) + EncodeAll(requests[i + 1..]))
    decreases i
  {
    if i == 0 {
      assert EncodeAll(requests[..0]) == [];
    } else {
      EncodeAllSplit(requests[1..], i - 1);
      assert requests[1..][..i - 1] == requests[..i][1..] && requests[1..][i..] == requests[i + 1..];
      ConcatAssociates(Encode(requests[0]), EncodeAll(requests[..i][1..]),
        Encode(requests[i]) + EncodeAll(requests[i + 1..]));
    }
  }

  // ----- malformed requests -----

  /** An array header with no number, or none above zero, is skipped. */
  lemma BadCountIsSkipped(count: seq<Byte>, more: seq<Byte>)
    requires 13 !in count
    requires count == [] || count[0] == 45 || (forall i :: 0 <= i < |count| ==> count[i] == 48)
      || exists i :: 1 <= i < |count| && !(48 <= count[i] <= 57)
    ensures CutCommand(Alive, [0x2a] + count + [13, 10] + more) == Frame(|count| + 3, Alive, [])
  {
    var line := [0x2a] + count;
    var data := line + [13, 10] + more;
    CrlfAfterPlain(line, more);
    assert data[1..|line|] == count;
    NotPositive(count);
  }

  lemma {:induction false} ZerosAreZero(s: seq<Byte>)
    requires forall i :: 0 <= i < |s| ==> s[i] == 48
    ensures DigitsValue(s) == 0
    decreases |s|
  {
    if s != [] { ZerosAreZero(s[..|s| - 1]); }
  }

  lemma NotPositive(count: seq<Byte>)
    requires count == [] || count[0] == 45 || (forall i :: 0 <= i < |count| ==> count[i] == 48)
      || exists i :: 1 <= i < |count| && !(48 <= count[i] <= 57)
    ensures Atoi(count).NotANumber? || Atoi(count).value <= 0
  {
    if forall i :: 0 <= i < |count| ==> count[i] == 48 {
      ZerosAreZero(count);
    } else if i :| 1 <= i < |count| && !(48 <= count[i] <= 57) {
      assert count[i] in count && count[1..][i - 1] == count[i] && count[i] in count[1..];
    }
  }

  lemma BrokenItemDiscards(n: nat, item: seq<Byte>)
    requires 0 < n <= MAX_PARTS && ItemAt(Line(0x2a, n) + item, |Line(0x2a, n)|) == Broken
    ensures Run(CutCommand, Alive, Line(0x2a, n) + item) == Framing.Parsed(Alive, [], [], false)
  {
    var header := Line(0x2a, n);
    var data := header + item;
    VerdictAfterHeader(n, item);
    ReadsItems(data);
    assert ReadsAt(ItemsReader(data), data, |header|, n - 1);
  }

  /** A first item that is no bulk string discards all that is buffered, */
  lemma BadItemDiscards(n: nat, item: seq<Byte>)
    requires 0 < n <= MAX_PARTS && item != [] && item[0] != 0x24
    ensures Run(CutCommand, Alive, Line(0x2a, n) + item) == Framing.Parsed(Alive, [], [], false)
  {
    BrokenItemDiscards(n, item);
  }

  /** so does one whose length is no number, */
  lemma BadLengthDiscards(n: nat, length: seq<Byte>, more: seq<Byte>)
    requires 0 < n <= MAX_PARTS && 13 !in length
    requires length == [] || exists i :: 1 <= i < |length| && !(48 <= length[i] <= 57)
    ensures Run(CutCommand, Alive, Line(0x2a, n) + ([0x24] + length + [13, 10] + more))
      == Framing.Parsed(Alive, [], [], false)
  {
    var item := [0x24] + length + [13, 10] + more;
    var data, pos := Line(0x2a, n) + item, |Line(0x2a, n)|;
    ItemAtIsCutItem(data, pos);
    assert data[pos..] == item;
    CrlfAfterPlain([0x24] + length, more);
    assert item[1..|length| + 1] == length;
    if i :| 1 <= i < |length| && !(48 <= length[i] <= 57) {
      assert length[i] in length && length[1..][i - 1] == length[i] && length[i] in length[1..];
    }
    BrokenItemDiscards(n, item);
  }

  /** and one that does not end in a line end where its length says. */
  lemma BadEndDiscards(n: nat, part: seq<Byte>, x: Byte, y: Byte, more: seq<Byte>)
    requires 0 < n <= MAX_PARTS && (x != 13 || y != 10)
    requires |Line(0x2a, n)| + |Line(0x24, |part|)| + |part| + 2 <= MAX_INT
    ensures Run(CutCommand, Alive, Line(0x2a, n) + (Line(0x24, |part|) + (part + [x, y] + more)))
      == Framing.Parsed(Alive, [], [], false)
  {
    var line, rest := Line(0x24, |part|), part + [x, y] + more;
    var item := line + rest;
    var data, pos := Line(0x2a, n) + item, |Line(0x2a, n)|;
    ItemAtIsCutItem(data, pos);
    assert data[pos..] == item;
    ReadLine(0x24, |part|, rest);
    assert item[|line| + |part|] == rest[|part|] == x && item[|line| + |part| + 1] == rest[|part| + 1] == y;
    BrokenItemDiscards(n, item);
  }
}
